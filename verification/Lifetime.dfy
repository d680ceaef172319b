/** How long a lifetime a schedule of contacts takes (core/src/dtn_sim.rs, core/src/engine.rs): a node keeps the
    first copy it gets, even if a later one has more hops left. */
module Lifetimes {
  import opened Bytes
  import opened Collections
  import opened Envelopes
  import opened Engine
  import opened Durable
  import opened RateLimiting
  import opened Relay
  import opened Contact
  import opened Schedule
  import opened Totals
  import opened CM = ContactMessages

  /** The hops the copy at each of `n` nodes has left after so many contacts, worked out from the script alone;
      zero where there is no copy. */
  ghost function Predicted(meetings: seq<Meeting>, origin: nat, lifetime: nat, n: nat, k: nat): (hops: seq<nat>)
    requires Script(meetings, n) && k <= |meetings|
    ensures |hops| == n
  {
    if k == 0 then seq(n, v => if v == origin then lifetime else 0)
    else Exchanged(Predicted(meetings, origin, lifetime, n, k - 1), meetings[k - 1])
  }

  lemma {:induction false} TracePredicted(hops: seq<seq<nat>>, meetings: seq<Meeting>, origin: nat, lifetime: nat,
                                          n: nat, k: nat)
    requires Script(meetings, n) && k <= |meetings| < |hops| && hops[0] == Predicted(meetings, origin, lifetime, n, 0)
    requires forall j | 0 < j <= |meetings| :: HopStep(hops[j - 1], hops[j], meetings[j - 1])
    ensures hops[k] == Predicted(meetings, origin, lifetime, n, k)
    decreases k
  {
    if k == 0 {
    } else {
      TracePredicted(hops, meetings, origin, lifetime, n, k - 1);
      assert HopStep(hops[k - 1], hops[k], meetings[k - 1]);
    }
  }

  lemma RunIsScript(o: Oracles, ws: seq<World>, meetings: seq<Meeting>)
    requires Run(o, ws, meetings) && AllIdle(ws[0])
    ensures Script(meetings, |ws[0]|)
  {
    forall i | 0 <= i < |meetings|
      ensures meetings[i].a < |ws[0]| && meetings[i].b < |ws[0]| && meetings[i].a != meetings[i].b
    {
      RunIdle(o, ws, meetings, i);
      RunStep(o, ws, meetings, i + 1);
    }
  }

  lemma StartPredicted(w: World, meetings: seq<Meeting>, origin: nat, born: Envelope)
    requires Script(meetings, |w|) && origin < |w| && Holders(w, born.Id()) <= {origin}
    requires Holds(w[origin], born.Id()) && w[origin].store.entries[born.Id()].envelope == born
    ensures Hops(w, born.Id()) == Predicted(meetings, origin, born.ttlHops, |w|, 0)
  {
    forall v: nat | v < |w| && v != origin
      ensures HopsAt(w[v], born.Id()) == 0
    {
      assert v !in Holders(w, born.Id());
    }
  }

  /** For every lifetime: after any favourable run a node holds the envelope exactly when the script alone predicts
      a copy with hops left there, and that is how many it has left. */
  lemma DeliveredAsPredicted(o: Oracles, ws: seq<World>, meetings: seq<Meeting>, origin: nat, born: Envelope, v: nat)
    requires FavourableRun(o, ws, meetings, origin, born) && v < |ws[0]|
    ensures |ws[|meetings|]| == |ws[0]| && Script(meetings, |ws[0]|)
    ensures var hops := Predicted(meetings, origin, born.ttlHops, |ws[0]|, |meetings|)[v];
            && (Holds(ws[|meetings|][v], born.Id()) <==> hops > 0)
            && HopsAt(ws[|meetings|][v], born.Id()) == hops
  {
    var trace := HopTrace(ws, born.Id());
    RunIsScript(o, ws, meetings);
    StartPredicted(ws[0], meetings, origin, born);
    RunHops(o, ws, meetings, born, trace);
    TracePredicted(trace, meetings, origin, born.ttlHops, |ws[0]|, |meetings|);
    RunIdle(o, ws, meetings, |meetings|);
    assert Idle(ws[|meetings|][v]);
  }

  // ----- which lifetimes suffice -----

  /** Linked by a time-respecting chain with fewer contacts than the lifetime has hops. */
  ghost predicate ShortlyChained(meetings: seq<Meeting>, origin: nat, v: nat, lifetime: nat) {
    exists path, times :: ChainTo(meetings, |meetings|, origin, v, path, times) && |times| < lifetime
  }

  ghost predicate HoldsLast(ws: seq<World>, v: nat, id: EnvelopeId) {
    && ws != []
    && var last := ws[|ws| - 1];
       v < |last| && Holds(last[v], id)
  }

  /** A node that a chain shorter than the lifetime leads to is reached. */
  ghost predicate ShortChainDelivers(o: Oracles, ws: seq<World>, meetings: seq<Meeting>, origin: nat, born: Envelope,
                                     v: nat) {
    FavourableRun(o, ws, meetings, origin, born) && v < |ws[0]| && ShortlyChained(meetings, origin, v, born.ttlHops) ==>
      HoldsLast(ws, v, born.Id())
  }

  ghost predicate Sized(ws: seq<World>, n: nat) {
    ws != [] && |ws[0]| == n
  }

  /** The simple claim: among so many nodes, with favourable contacts, an envelope of this lifetime reaches every
      node that a chain shorter than its lifetime leads to. */
  ghost predicate LifetimeSuffices(o: Oracles, n: nat, lifetime: byte) {
    forall ws, meetings, origin, born: Envelope, v | Sized(ws, n) && born.ttlHops == lifetime ::
      ShortChainDelivers(o, ws, meetings, origin, born, v)
  }

  /** Whoever has a copy keeps it, and the composer's is as new. */
  lemma {:induction false} CopiesStay(meetings: seq<Meeting>, origin: nat, lifetime: nat, n: nat, v: nat, j: nat,
                                      k: nat)
    requires Script(meetings, n) && origin < n && v < n && lifetime > 0 && j <= k <= |meetings|
    ensures Predicted(meetings, origin, lifetime, n, k)[origin] == lifetime
    ensures Predicted(meetings, origin, lifetime, n, j)[v] > 0 ==> Predicted(meetings, origin, lifetime, n, k)[v] > 0
    decreases k
  {
    if j < k {
      CopiesStay(meetings, origin, lifetime, n, v, j, k - 1);
    } else if k > 0 {
      CopiesStay(meetings, origin, lifetime, n, v, k - 1, k - 1);
    }
  }

  lemma NeighbourTakes(meetings: seq<Meeting>, origin: nat, lifetime: nat, n: nat, v: nat, t: nat)
    requires Script(meetings, n) && origin < n && v < n && lifetime >= 2 && t < |meetings|
    requires Links(meetings[t], origin, v)
    ensures Predicted(meetings, origin, lifetime, n, |meetings|)[v] > 0
  {
    CopiesStay(meetings, origin, lifetime, n, v, t, t);
    CopiesStay(meetings, origin, lifetime, n, v, t + 1, |meetings|);
  }

  /** A chain of at most one contact. */
  lemma ShortestChain(meetings: seq<Meeting>, origin: nat, v: nat, path: seq<nat>, times: seq<nat>)
    requires ChainTo(meetings, |meetings|, origin, v, path, times) && |times| <= 1
    ensures v == origin || (|times| == 1 && times[0] < |meetings| && Links(meetings[times[0]], origin, v))
  {
    if |times| == 1 { assert LinkAt(meetings, |meetings|, path, times, 0); }
  }

  lemma SmallLifetime(o: Oracles, ws: seq<World>, meetings: seq<Meeting>, origin: nat, born: Envelope, v: nat)
    requires FavourableRun(o, ws, meetings, origin, born) && v < |ws[0]| && born.ttlHops <= 2
    requires ShortlyChained(meetings, origin, v, born.ttlHops)
    ensures HoldsLast(ws, v, born.Id())
  {
    var path, times :| ChainTo(meetings, |meetings|, origin, v, path, times) && |times| < born.ttlHops;
    DeliveredAsPredicted(o, ws, meetings, origin, born, v);
    ShortestChain(meetings, origin, v, path, times);
    if v == origin {
      CopiesStay(meetings, origin, born.ttlHops, |ws[0]|, v, 0, |meetings|);
    } else {
      NeighbourTakes(meetings, origin, born.ttlHops, |ws[0]|, v, times[0]);
    }
  }

  // ----- any script has a favourable run -----

  /** The frame of one copy fits the byte budget of a rate window. */
  ghost predicate Small(born: Envelope) {
    |CM.ToBytes(Data(born, 0))| <= DEFAULT_CONFIG.maxBytes
  }

  /** The world before anything is composed but one envelope. */
  ghost function FirstWorld(n: nat, origin: nat, born: Envelope): (w: World)
    ensures |w| == n
  {
    seq(n, v => Node(if v == origin then Insert(Empty(1000), born) else Empty(1000), map[], 0, DEFAULT_CONFIG))
  }

  lemma FirstAmple(n: nat, origin: nat, born: Envelope)
    requires Small(born) && born.ttlHops >= 1
    ensures AllAmple(FirstWorld(n, origin, born), map[born.Id() := born])
  {
    var start, all := FirstWorld(n, origin, born), map[born.Id() := born];
    InsertValid(Empty(1000), born);
    OneTotal(born);
    assert all.Keys == {born.Id()} && |all.Keys| == |all|;
    forall v | 0 <= v < n
      ensures Ample(start[v], all)
    {
      assert start[v].store.entries.Keys <= all.Keys;
    }
  }

  lemma FirstHeld(n: nat, origin: nat, born: Envelope)
    requires origin < n
    ensures var start := FirstWorld(n, origin, born);
            && Holders(start, born.Id()) <= {origin} && Holds(start[origin], born.Id())
            && start[origin].store.entries[born.Id()].envelope == born
  {
    var start := FirstWorld(n, origin, born);
    assert start[origin].store == Insert(Empty(1000), born);
    assert forall v | 0 <= v < n && v != origin :: start[v].store == Empty(1000);
  }

  /** Every script has a favourable run: fresh nodes, one of which has composed an envelope that does not expire
      meanwhile and whose frame fits the rate budget. */
  lemma FavourableRunExists(o: Oracles, meetings: seq<Meeting>, n: nat, origin: nat, born: Envelope)
    returns (ws: seq<World>)
    requires Script(meetings, n) && origin < n && born.ttlHops >= 1 && Small(born)
    requires forall i | 0 <= i < |meetings| :: meetings[i].tick < born.expiresAt
    ensures FavourableRun(o, ws, meetings, origin, born) && |ws[0]| == n
  {
    var start, all := FirstWorld(n, origin, born), map[born.Id() := born];
    FirstAmple(n, origin, born);
    FirstHeld(n, origin, born);
    ws := RunHappens(o, start, meetings, all);
    AloneIsDistinguished(o, born.Id());
    assert all.Keys == {born.Id()};
    AmpleRunFavourable(o, ws, meetings, origin, born, all);
  }

  // ----- the detour -----

  /** The envelope goes the long way round first, one hop at a time, and the last node of that way keeps its
      exhausted copy when it meets the composer itself, right before it meets one more node. */
  ghost function Detour(lifetime: nat): seq<Meeting>
    requires lifetime >= 3
  {
    seq(lifetime - 1, i requires 0 <= i => Meeting(i + 1, i, i + 1))
        + [Meeting(lifetime, 0, lifetime - 1), Meeting(lifetime + 1, lifetime - 1, lifetime)]
  }

  lemma {:induction false} LongWay(lifetime: nat, n: nat, k: nat)
    requires 3 <= lifetime < n && k < lifetime
    ensures Script(Detour(lifetime), n)
    ensures forall v | 0 <= v < n ::
            Predicted(Detour(lifetime), 0, lifetime, n, k)[v] == if v <= k then lifetime - v else 0
    decreases k
  {
    if k == 0 {
    } else {
      LongWay(lifetime, n, k - 1);
    }
  }

  lemma DetourMisses(lifetime: nat, n: nat)
    requires 3 <= lifetime < n
    ensures Script(Detour(lifetime), n)
    ensures Predicted(Detour(lifetime), 0, lifetime, n, |Detour(lifetime)|)[lifetime] == 0
    ensures ShortlyChained(Detour(lifetime), 0, lifetime, lifetime)
  {
    var meetings := Detour(lifetime);
    LongWay(lifetime, n, lifetime - 1);
    assert meetings[lifetime - 1] == Meeting(lifetime, 0, lifetime - 1);
    assert meetings[lifetime] == Meeting(lifetime + 1, lifetime - 1, lifetime);
    var before := Predicted(meetings, 0, lifetime, n, lifetime - 1);
    assert Predicted(meetings, 0, lifetime, n, lifetime) == Exchanged(before, meetings[lifetime - 1]) == before;
    assert Predicted(meetings, 0, lifetime, n, lifetime + 1) == Exchanged(before, meetings[lifetime]);
    assert ChainTo(meetings, |meetings|, 0, lifetime, [0, lifetime - 1, lifetime], [lifetime - 1, lifetime]);
  }

  lemma DetourIsQuick(lifetime: byte)
    requires lifetime >= 3
    ensures forall i | 0 <= i < |Detour(lifetime)| :: Detour(lifetime)[i].tick < 1000
  {
  }

  lemma EmptyIsSmall(lifetime: byte)
    ensures Small(Envelope(Broadcast, Sos, lifetime, 1000, []))
  {
  }

  /** A chain with fewer contacts than the lifetime has hops is not enough: for every lifetime of at least three
      and less than the number of nodes there is a favourable run in which a node two contacts from the composer
      is missed. */
  lemma ShortChainMayFail(o: Oracles, n: nat, lifetime: byte) returns (ws: seq<World>, born: Envelope)
    requires 3 <= lifetime < n
    ensures FavourableRun(o, ws, Detour(lifetime), 0, born) && |ws[0]| == n && born.ttlHops == lifetime
    ensures ShortlyChained(Detour(lifetime), 0, lifetime, lifetime)
    ensures !HoldsLast(ws, lifetime, born.Id())
  {
    born := Envelope(Broadcast, Sos, lifetime, 1000, []);
    DetourMisses(lifetime, n);
    EmptyIsSmall(lifetime);
    DetourIsQuick(lifetime);
    ws := FavourableRunExists(o, Detour(lifetime), n, 0, born);
    DeliveredAsPredicted(o, ws, Detour(lifetime), 0, born, lifetime);
  }

  /** The exact condition: a lifetime longer than the chain is enough in every favourable run among `n` nodes if
      and only if it is at most two, or at least `n`. */
  lemma ShortChainsIff(o: Oracles, n: nat, lifetime: byte)
    ensures LifetimeSuffices(o, n, lifetime) <==> lifetime <= 2 || lifetime >= n
  {
    if 3 <= lifetime < n {
      var ws, born := ShortChainMayFail(o, n, lifetime);
      assert Sized(ws, n) && !ShortChainDelivers(o, ws, Detour(lifetime), 0, born, lifetime);
    } else {
      forall ws, meetings, origin, born: Envelope, v | Sized(ws, n) && born.ttlHops == lifetime
        ensures ShortChainDelivers(o, ws, meetings, origin, born, v)
      {
        SufficientLifetime(o, ws, meetings, origin, born, v);
      }
    }
  }

  lemma SufficientLifetime(o: Oracles, ws: seq<World>, meetings: seq<Meeting>, origin: nat, born: Envelope, v: nat)
    requires ws != [] && (born.ttlHops <= 2 || born.ttlHops >= |ws[0]|)
    ensures ShortChainDelivers(o, ws, meetings, origin, born, v)
  {
    if FavourableRun(o, ws, meetings, origin, born) && v < |ws[0]|
        && ShortlyChained(meetings, origin, v, born.ttlHops) {
      if born.ttlHops <= 2 {
        SmallLifetime(o, ws, meetings, origin, born, v);
      } else {
        var path, times :| ChainTo(meetings, |meetings|, origin, v, path, times) && |times| < born.ttlHops;
        DeliveredAlongChains(o, ws, meetings, origin, born, v);
      }
    }
  }
}
