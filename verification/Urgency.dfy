/** Which envelopes a bounded store ends up keeping (core/src/engine.rs): the most urgent ones offered,
    whatever the order of the offers, and never one it let go before. */
module Urgency {
  import opened Collections
  import opened Wrappers
  import opened Envelopes
  import opened Engine

  /** One call of `accept`: the envelope offered and the time of the offer. */
  datatype Offer = Offer(envelope: Envelope, now: nat) {
    /** Not refused for its own sake, whatever the store holds. */
    predicate Live() {
      now < envelope.expiresAt && envelope.ttlHops >= 1
    }
  }

  ghost function AcceptAll(s: StoreState, offers: seq<Offer>): StoreState {
    if offers == [] then s
    else
      var last := offers[|offers| - 1];
      AcceptStep(AcceptAll(s, offers[..|offers| - 1]), last.envelope, last.now).0
  }

  /** Identities offered live with at most the given priority ordinal. */
  ghost function Offered(offers: seq<Offer>, level: nat): set<EnvelopeId> {
    if offers == [] then {}
    else
      var last := offers[|offers| - 1];
      var before := Offered(offers[..|offers| - 1], level);
      if last.Live() && last.envelope.priority.Ordinal() <= level then before + {last.envelope.Id()} else before
  }

  /** Identities held with at most the given priority ordinal. */
  ghost function Held(s: StoreState, level: nat): set<EnvelopeId> {
    set id | id in s.entries && s.entries[id].envelope.priority.Ordinal() <= level
  }

  ghost function Min(a: nat, b: nat): nat {
    if a <= b then a else b
  }

  /** At this level the store holds as many of the identities offered as fit, and nothing else. */
  ghost predicate TopAt(s: StoreState, offered: set<EnvelopeId>, level: nat) {
    Held(s, level) <= offered && |Held(s, level)| == Min(s.capacity, |offered|)
  }

  /** A full store that holds nothing above a level, and what that means for one entry that is. */
  lemma HeldBounds(s: StoreState, level: nat)
    requires Valid(s)
    ensures Held(s, level) <= s.entries.Keys && |Held(s, level)| <= |s.entries|
    ensures |Held(s, level)| == |s.entries| ==> Held(s, level) == s.entries.Keys
  {
    SubsetSize(Held(s, level), s.entries.Keys);
    assert |s.entries.Keys| == |s.entries|;
  }

  lemma HeldInsert(s: StoreState, e: Envelope, level: nat)
    requires e.Id() !in s.entries
    ensures Held(Insert(s, e), level) == Held(s, level) + if e.priority.Ordinal() <= level then {e.Id()} else {}
  {
  }

  lemma HeldRemove(s: StoreState, id: EnvelopeId, level: nat)
    requires id in s.entries
    ensures Held(s.(entries := s.entries - {id}), level) == Held(s, level) - {id}
  {
  }

  /** An identity offered before and no longer held is refused: its level is already full. */
  lemma RefusedAgain(s: StoreState, offer: Offer, offered: set<EnvelopeId>)
    requires Valid(s) && offer.Live() && offer.envelope.Id() !in s.entries
    requires TopAt(s, offered, offer.envelope.priority.Ordinal()) && offer.envelope.Id() in offered
    ensures AcceptStep(s, offer.envelope, offer.now) == (s, StoreFullLowerPriority, None)
  {
    var level := offer.envelope.priority.Ordinal();
    SubsetSize(Held(s, level), offered);
    HeldBounds(s, level);
    assert |Held(s, level)| == s.capacity;
    if |s.entries| > 0 { assert Worst(s.entries) in Held(s, level); }
  }

  /** Swapping the worst entry for a more urgent newcomer, seen from one level. */
  lemma EvictionHeld(s: StoreState, e: Envelope, worst: EnvelopeId, level: nat)
    requires IsWorst(s.entries, worst) && e.Id() !in s.entries
    requires e.priority.Ordinal() < s.entries[worst].envelope.priority.Ordinal()
    ensures var held := Held(Insert(s.(entries := s.entries - {worst}), e), level);
            if s.entries[worst].envelope.priority.Ordinal() <= level then
              Held(s, level) == s.entries.Keys && worst in s.entries && held == s.entries.Keys - {worst} + {e.Id()}
            else
              worst in s.entries.Keys - Held(s, level)
              && held == Held(s, level) + if e.priority.Ordinal() <= level then {e.Id()} else {}
  {
    HeldRemove(s, worst, level);
    HeldInsert(s.(entries := s.entries - {worst}), e, level);
    if s.entries[worst].envelope.priority.Ordinal() <= level {
      assert Held(s, level) == s.entries.Keys;
    } else {
      assert Held(s, level) - {worst} == Held(s, level);
    }
  }

  lemma EvictionKeepsTop(s: StoreState, e: Envelope, worst: EnvelopeId, offered: set<EnvelopeId>, level: nat)
    requires Valid(s) && |s.entries| == s.capacity && IsWorst(s.entries, worst) && e.Id() !in s.entries
    requires e.priority.Ordinal() < s.entries[worst].envelope.priority.Ordinal()
    requires TopAt(s, offered, level) && e.Id() !in offered
    ensures TopAt(Insert(s.(entries := s.entries - {worst}), e),
                  offered + if e.priority.Ordinal() <= level then {e.Id()} else {}, level)
  {
    EvictionHeld(s, e, worst, level);
    assert |s.entries.Keys| == |s.entries|;
    if s.entries[worst].envelope.priority.Ordinal() <= level {
      SwapTop(s.entries.Keys, offered, worst, e.Id(), s.capacity);
    } else {
      SubsetSize(Held(s, level), s.entries.Keys);
      if e.priority.Ordinal() <= level { GrowTop(Held(s, level), offered, e.Id(), s.capacity); }
    }
  }

  /** A full selection with one member exchanged for a newcomer is still full. */
  lemma SwapTop<T>(keys: set<T>, offered: set<T>, out: T, newcomer: T, capacity: nat)
    requires keys <= offered && |keys| == capacity && out in keys && newcomer !in offered
    ensures keys - {out} + {newcomer} <= offered + {newcomer}
    ensures |keys - {out} + {newcomer}| == Min(capacity, |offered + {newcomer}|)
  {
    SwapSize(keys, out, newcomer);
    SubsetSize(keys, offered);
    SubsetSize(offered, offered + {newcomer});
  }

  /** A selection with room left holds all there is, and goes on doing so. */
  lemma GrowTop<T>(held: set<T>, offered: set<T>, newcomer: T, capacity: nat)
    requires held <= offered && |held| == Min(capacity, |offered|) && |held| < capacity && newcomer !in offered
    ensures held + {newcomer} <= offered + {newcomer} && |held + {newcomer}| == Min(capacity, |offered + {newcomer}|)
  {
    GrowSize(held, offered, newcomer);
  }

  lemma RoomKeepsTop(s: StoreState, e: Envelope, offered: set<EnvelopeId>, level: nat)
    requires Valid(s) && |s.entries| < s.capacity && e.Id() !in s.entries
    requires TopAt(s, offered, level) && e.Id() !in offered
    ensures TopAt(Insert(s, e), offered + if e.priority.Ordinal() <= level then {e.Id()} else {}, level)
  {
    HeldBounds(s, level);
    HeldInsert(s, e, level);
  }

  /** A full store refuses an offer no more urgent than its worst; every level from the offer's up was full. */
  lemma RefusalKeepsTop(s: StoreState, e: Envelope, offered: set<EnvelopeId>, level: nat)
    requires Valid(s) && |s.entries| == s.capacity
    requires |s.entries| > 0 ==> s.entries[Worst(s.entries)].envelope.priority.Ordinal() <= e.priority.Ordinal()
    requires TopAt(s, offered, level) && e.priority.Ordinal() <= level
    ensures TopAt(s, offered + {e.Id()}, level)
  {
    assert Held(s, level) == s.entries.Keys;
    assert |s.entries.Keys| == |s.entries|;
    SubsetSize(Held(s, level), offered);
    SubsetSize(offered, offered + {e.Id()});
  }

  lemma OfferedKeepsPriority(offers: seq<Offer>, e: Envelope, level: nat)
    requires e.Id() in Offered(offers, level)
    ensures e.priority.Ordinal() <= level && e.Id() in Offered(offers, e.priority.Ordinal())
  {
    if offers != [] {
      var last := offers[|offers| - 1].envelope;
      IdIgnoresOnlyHops(e, last);
      if e.Id() in Offered(offers[..|offers| - 1], level) { OfferedKeepsPriority(offers[..|offers| - 1], e, level); }
    }
  }

  lemma HeldKeepsPriority(s: StoreState, e: Envelope)
    requires Valid(s) && e.Id() in s.entries
    ensures s.entries[e.Id()].envelope.priority == e.priority
  {
    IdIgnoresOnlyHops(e, s.entries[e.Id()].envelope);
  }

  /** Nothing changes, in the store or in what was offered, when an identity comes that is held or was let go. */
  lemma RepeatKeepsTop(s: StoreState, before: seq<Offer>, offer: Offer, level: nat)
    requires Valid(s) && offer.Live() && TopAt(s, Offered(before, level), level)
    requires var own := offer.envelope.priority.Ordinal();
             TopAt(s, Offered(before, own), own)
                 && (offer.envelope.Id() in s.entries || offer.envelope.Id() in Offered(before, own))
    ensures AcceptStep(s, offer.envelope, offer.now).0 == s
    ensures offer.envelope.priority.Ordinal() <= level ==> offer.envelope.Id() in Offered(before, level)
  {
    var e, own := offer.envelope, offer.envelope.priority.Ordinal();
    if e.Id() in s.entries {
      HeldKeepsPriority(s, e);
      assert own <= level ==> e.Id() in Held(s, level);
    } else {
      RefusedAgain(s, offer, Offered(before, own));
      if own <= level { OfferedGrows(before, own, level); }
    }
  }

  lemma OfferedMore(before: seq<Offer>, offer: Offer, level: nat)
    ensures Offered(before + [offer], level)
         == Offered(before, level)
             + (if offer.Live() && offer.envelope.priority.Ordinal() <= level then {offer.envelope.Id()} else {})
  {
    assert (before + [offer])[..|before|] == before;
  }

  /** One offer carries the claim on, at every level. */
  lemma OfferKeepsTop(s: StoreState, before: seq<Offer>, offer: Offer, level: nat)
    requires Valid(s) && TopAt(s, Offered(before, level), level)
    requires TopAt(s, Offered(before, offer.envelope.priority.Ordinal()), offer.envelope.priority.Ordinal())
    ensures TopAt(AcceptStep(s, offer.envelope, offer.now).0, Offered(before + [offer], level), level)
  {
    var e, offered := offer.envelope, Offered(before, level);
    OfferedMore(before, offer, level);
    if !offer.Live() {
      assert AcceptStep(s, e, offer.now).0 == s && offered + {} == offered;
    } else if e.Id() in s.entries || e.Id() in Offered(before, e.priority.Ordinal()) {
      RepeatKeepsTop(s, before, offer, level);
      assert Offered(before + [offer], level) == offered;
    } else {
      if e.Id() in offered { OfferedKeepsPriority(before, e, level); }
      FirstOfferKeepsTop(s, offer, offered, level);
    }
  }

  lemma FirstOfferKeepsTop(s: StoreState, offer: Offer, offered: set<EnvelopeId>, level: nat)
    requires Valid(s) && TopAt(s, offered, level) && offer.Live()
    requires offer.envelope.Id() !in s.entries && offer.envelope.Id() !in offered
    ensures TopAt(AcceptStep(s, offer.envelope, offer.now).0,
                  offered + if offer.envelope.priority.Ordinal() <= level then {offer.envelope.Id()} else {}, level)
  {
    var e := offer.envelope;
    if |s.entries| < s.capacity {
      RoomKeepsTop(s, e, offered, level);
    } else if |s.entries| > 0 && e.priority.Ordinal() < s.entries[Worst(s.entries)].envelope.priority.Ordinal() {
      AcceptEvicts(s, e, offer.now);
      EvictionKeepsTop(s, e, Worst(s.entries), offered, level);
    } else if e.priority.Ordinal() <= level {
      RefusalKeepsTop(s, e, offered, level);
    }
  }

  lemma {:induction false} OfferedGrows(offers: seq<Offer>, low: nat, high: nat)
    requires low <= high
    ensures Offered(offers, low) <= Offered(offers, high)
  {
    if offers == [] {
    } else {
      OfferedGrows(offers[..|offers| - 1], low, high);
    }
  }

  lemma {:induction false} AcceptAllValid(capacity: nat, offers: seq<Offer>)
    ensures Valid(AcceptAll(Empty(capacity), offers)) && AcceptAll(Empty(capacity), offers).capacity == capacity
  {
    if offers == [] {
    } else {
      var before, last := offers[..|offers| - 1], offers[|offers| - 1];
      AcceptAllValid(capacity, before);
      AcceptEffect(AcceptAll(Empty(capacity), before), last.envelope, last.now);
    }
  }

  /** The store keeps the most urgent: however the offers come, repeat or expire, at every level of urgency it
      holds as many of the live identities offered as fit, and nothing that was not offered. */
  lemma {:induction false} KeepsMostUrgent(capacity: nat, offers: seq<Offer>, level: nat)
    ensures TopAt(AcceptAll(Empty(capacity), offers), Offered(offers, level), level)
    decreases |offers|
  {
    if offers == [] {
      assert Held(Empty(capacity), level) == {};
    } else {
      var before, last := offers[..|offers| - 1], offers[|offers| - 1];
      var s, kept := AcceptAll(Empty(capacity), before), AcceptAll(Empty(capacity), offers);
      assert offers == before + [last];
      assert kept == AcceptStep(s, last.envelope, last.now).0;
      AcceptAllValid(capacity, before);
      KeepsMostUrgent(capacity, before, level);
      KeepsMostUrgent(capacity, before, last.envelope.priority.Ordinal());
      OfferKeepsTop(s, before, last, level);
      assert TopAt(kept, Offered(before + [last], level), level);
    }
  }

  /** What it let go stays out: an identity offered live before and not held now, because it was evicted or
      refused for space, is refused again, and the refusal changes nothing. */
  lemma NeverReaccepted(capacity: nat, offers: seq<Offer>, offer: Offer)
    requires offer.Live() && offer.envelope.Id() in Offered(offers, offer.envelope.priority.Ordinal())
    requires offer.envelope.Id() !in AcceptAll(Empty(capacity), offers).entries
    ensures var kept := AcceptAll(Empty(capacity), offers);
            AcceptStep(kept, offer.envelope, offer.now) == (kept, StoreFullLowerPriority, None)
  {
    var level := offer.envelope.priority.Ordinal();
    AcceptAllValid(capacity, offers);
    KeepsMostUrgent(capacity, offers, level);
    RefusedAgain(AcceptAll(Empty(capacity), offers), offer, Offered(offers, level));
  }

  /** The order of the offers, and how often each is repeated, changes no count at any level. */
  lemma OrderIrrelevant(capacity: nat, offers: seq<Offer>, others: seq<Offer>, level: nat)
    requires Offered(offers, level) == Offered(others, level)
    ensures |Held(AcceptAll(Empty(capacity), offers), level)| == |Held(AcceptAll(Empty(capacity), others), level)|
  {
    AcceptAllValid(capacity, offers);
    AcceptAllValid(capacity, others);
    KeepsMostUrgent(capacity, offers, level);
    KeepsMostUrgent(capacity, others, level);
  }

  /** Offers at a level that fit are all kept, however much less urgent traffic there was. */
  lemma KeepsAllThatFit(capacity: nat, offers: seq<Offer>, level: nat)
    requires |Offered(offers, level)| <= capacity
    ensures Held(AcceptAll(Empty(capacity), offers), level) == Offered(offers, level)
  {
    AcceptAllValid(capacity, offers);
    KeepsMostUrgent(capacity, offers, level);
    SubsetSize(Held(AcceptAll(Empty(capacity), offers), level), Offered(offers, level));
  }
}
