/** The bounded in-memory envelope store (core/src/engine.rs). */
module Engine {
  import opened Bytes
  import opened Collections
  import opened Wrappers
  import opened Envelopes
  import Bloom

  datatype Entry = Entry(envelope: Envelope, seqNo: nat)

  type Entries = map<EnvelopeId, Entry>

  datatype StoreState = StoreState(capacity: nat, entries: Entries, nextSeq: nat)

  datatype Accept = New | Duplicate | Expired | TtlExhausted | StoreFullLowerPriority

  function Empty(capacity: nat): StoreState {
    StoreState(capacity, map[], 0)
  }

  /** The order the source maximises: by priority ordinal, then oldest first. */
  predicate AtMostAsBad(a: Entry, b: Entry) {
    a.envelope.priority.Ordinal() < b.envelope.priority.Ordinal()
    || (a.envelope.priority == b.envelope.priority && a.seqNo >= b.seqNo)
  }

  ghost predicate IsWorst(entries: Entries, id: EnvelopeId) {
    id in entries && forall other | other in entries :: AtMostAsBad(entries[other], entries[id])
  }

  ghost predicate Valid(s: StoreState) {
    && |s.entries| <= s.capacity
    && (forall id | id in s.entries ::
          s.entries[id].envelope.Id() == id && s.entries[id].seqNo < s.nextSeq && s.entries[id].envelope.ttlHops >= 1)
    && (forall a, b | a in s.entries && b in s.entries && s.entries[a].seqNo == s.entries[b].seqNo :: a == b)
  }

  lemma {:induction false} WorstExists(entries: Entries)
    requires |entries| > 0
    ensures exists id :: IsWorst(entries, id)
    decreases |entries|
  {
    var id :| id in entries;
    var rest := entries - {id};
    assert rest.Keys == entries.Keys - {id};
    if rest.Keys == {} {
      assert entries.Keys == {id};
      assert IsWorst(entries, id);
    } else {
      assert |rest| == |rest.Keys| < |entries.Keys| == |entries|;
      WorstExists(rest);
      var w :| IsWorst(rest, w);
      assert forall other | other in entries :: other == id || other in rest;
      if AtMostAsBad(entries[id], entries[w]) {
        assert IsWorst(entries, w);
      } else {
        assert IsWorst(entries, id);
      }
    }
  }

  ghost function Worst(entries: Entries): (id: EnvelopeId)
    requires |entries| > 0
    ensures IsWorst(entries, id)
  {
    WorstExists(entries);
    var id :| IsWorst(entries, id); id
  }

  /** The victim does not depend on the order the map is walked in. */
  lemma WorstIsUnique(s: StoreState, a: EnvelopeId, b: EnvelopeId)
    requires Valid(s) && IsWorst(s.entries, a) && IsWorst(s.entries, b)
    ensures a == b
  {
    assert AtMostAsBad(s.entries[a], s.entries[b]) && AtMostAsBad(s.entries[b], s.entries[a]);
  }

  ghost function AcceptStep(s: StoreState, e: Envelope, now: nat): (StoreState, Accept, Option<EnvelopeId>) {
    if e.Id() in s.entries then (s, Duplicate, None)
    else if e.IsExpired(now) then (s, Expired, None)
    else if e.ttlHops == 0 then (s, TtlExhausted, None)
    else if |s.entries| >= s.capacity then FullStep(s, e)
    else (Insert(s, e), New, None)
  }

  /** What a full store does with an envelope it could take. */
  ghost function FullStep(s: StoreState, e: Envelope): (StoreState, Accept, Option<EnvelopeId>) {
    if |s.entries| == 0 then (s, StoreFullLowerPriority, None)
    else
      var worst := Worst(s.entries);
      if e.priority.Ordinal() >= s.entries[worst].envelope.priority.Ordinal() then (s, StoreFullLowerPriority, None)
      else
        var s' := s.(entries := s.entries - {worst});
        if |s'.entries| >= s.capacity then (s', StoreFullLowerPriority, Some(worst))
        else (Insert(s', e), New, Some(worst))
  }

  function Insert(s: StoreState, e: Envelope): StoreState {
    s.(entries := s.entries[e.Id() := Entry(e, s.nextSeq)], nextSeq := s.nextSeq + 1)
  }

  lemma InsertValid(s: StoreState, e: Envelope)
    requires Valid(s) && |s.entries| < s.capacity && e.Id() !in s.entries && e.ttlHops >= 1
    ensures Valid(Insert(s, e))
  {
    InsertCount(s.entries, e.Id(), Entry(e, s.nextSeq));
  }

  lemma RemoveValid(s: StoreState, id: EnvelopeId)
    requires Valid(s) && id in s.entries
    ensures Valid(s.(entries := s.entries - {id})) && |s.entries - {id}| == |s.entries| - 1
  {
    RemoveCount(s.entries, id);
  }

  /** A full store makes room for something strictly more urgent than its worst. */
  lemma AcceptEvicts(s: StoreState, e: Envelope, now: nat)
    requires Valid(s) && |s.entries| == s.capacity > 0 && e.Id() !in s.entries && now < e.expiresAt && e.ttlHops >= 1
    requires e.priority.Ordinal() < s.entries[Worst(s.entries)].envelope.priority.Ordinal()
    ensures var s' := Insert(s.(entries := s.entries - {Worst(s.entries)}), e);
            AcceptStep(s, e, now) == (s', New, Some(Worst(s.entries))) && Valid(s')
  {
    RemoveValid(s, Worst(s.entries));
    InsertValid(s.(entries := s.entries - {Worst(s.entries)}), e);
  }

  /** What every offer does to a well-formed store: it stays within capacity; what is accepted is stored as
      offered; what leaves is one entry, the oldest of the least urgent, and strictly less urgent than the
      newcomer, so never an SOS; and nothing else changes. */
  lemma AcceptEffect(s: StoreState, e: Envelope, now: nat)
    requires Valid(s)
    ensures var (s', outcome, evicted) := AcceptStep(s, e, now);
            && Valid(s') && s'.capacity == s.capacity
            && (outcome != New ==> s' == s && evicted.None?)
            && (outcome.New? ==>
                  && e.Id() !in s.entries && now < e.expiresAt && e.ttlHops >= 1
                  && s' == Insert(if evicted.Some? then s.(entries := s.entries - {evicted.value}) else s, e))
            && (evicted.Some? ==>
                  && |s.entries| == s.capacity && IsWorst(s.entries, evicted.value)
                  && e.priority.Ordinal() < s.entries[evicted.value].envelope.priority.Ordinal())
  {
    if e.Id() !in s.entries && now < e.expiresAt && e.ttlHops >= 1 {
      if |s.entries| < s.capacity {
        InsertValid(s, e);
      } else if |s.entries| > 0 && e.priority.Ordinal() < s.entries[Worst(s.entries)].envelope.priority.Ordinal() {
        AcceptEvicts(s, e, now);
      }
    }
  }

  /** Some stored envelope is less urgent than this one. */
  ghost predicate Outranks(e: Envelope, s: StoreState) {
    exists id | id in s.entries :: s.entries[id].envelope.priority.Ordinal() > e.priority.Ordinal()
  }

  lemma FullAnswers(s: StoreState, e: Envelope)
    requires Valid(s) && |s.entries| == s.capacity
    ensures FullStep(s, e).1 == if Outranks(e, s) then New else StoreFullLowerPriority
    ensures !Outranks(e, s) ==> FullStep(s, e) == (s, StoreFullLowerPriority, None)
  {
    if |s.entries| == 0 {
      assert |s.entries.Keys| == 0;
    } else {
      var worst := Worst(s.entries);
      RemoveValid(s, worst);
      assert forall id | id in s.entries :: AtMostAsBad(s.entries[id], s.entries[worst]);
    }
  }

  /** The answer to every offer, from the store before it and the clock alone. */
  lemma AcceptAnswers(s: StoreState, e: Envelope, now: nat)
    requires Valid(s)
    ensures AcceptStep(s, e, now).1
         == if e.Id() in s.entries then Duplicate
            else if e.expiresAt <= now then Expired
            else if e.ttlHops == 0 then TtlExhausted
            else if |s.entries| == s.capacity && !Outranks(e, s) then StoreFullLowerPriority
            else New
    ensures AcceptStep(s, e, now).1 != New ==> AcceptStep(s, e, now) == (s, AcceptStep(s, e, now).1, None)
  {
    if |s.entries| == s.capacity { FullAnswers(s, e); }
  }

  /** An entry no other beats: none less urgent, and none of its own urgency stored before it. */
  ghost predicate Victim(entries: Entries, id: EnvelopeId) {
    && id in entries
    && forall other | other in entries ::
         || entries[other].envelope.priority.Ordinal() < entries[id].envelope.priority.Ordinal()
         || (entries[other].envelope.priority == entries[id].envelope.priority
             && entries[id].seqNo <= entries[other].seqNo)
  }

  lemma WorstIsVictim(entries: Entries, id: EnvelopeId)
    requires IsWorst(entries, id)
    ensures Victim(entries, id)
  {
    assert forall other | other in entries :: AtMostAsBad(entries[other], entries[id]);
  }

  /** The newcomer is stored as offered and as the latest of all, and nothing else goes but what is evicted. */
  ghost predicate Takes(before: Entries, after: Entries, e: Envelope, evicted: Option<EnvelopeId>) {
    && after.Keys == before.Keys - (if evicted.Some? then {evicted.value} else {}) + {e.Id()}
    && after[e.Id()].envelope == e
    && forall id | id in after && id != e.Id() ::
         id in before && after[id] == before[id] && after[id].seqNo < after[e.Id()].seqNo
  }

  lemma InsertTakes(s: StoreState, e: Envelope, evicted: Option<EnvelopeId>)
    requires Valid(s)
    ensures var base := if evicted.Some? then s.(entries := s.entries - {evicted.value}) else s;
            Takes(s.entries, Insert(base, e).entries, e, evicted)
  {
  }

  /** What an accepted offer does: a store with room loses nothing, and a full one exactly its victim, which is less
      urgent than the newcomer. */
  lemma AcceptTakes(s: StoreState, e: Envelope, now: nat)
    requires Valid(s) && AcceptStep(s, e, now).1.New?
    ensures var (s', _, evicted) := AcceptStep(s, e, now);
            && Takes(s.entries, s'.entries, e, evicted)
            && (evicted.Some? <==> |s.entries| == s.capacity)
            && (evicted.Some? ==> Victim(s.entries, evicted.value))
            && (evicted.Some? ==> s.entries[evicted.value].envelope.priority.Ordinal() > e.priority.Ordinal())
  {
    var (s', _, evicted) := AcceptStep(s, e, now);
    AcceptEffect(s, e, now);
    InsertTakes(s, e, evicted);
    InsertCount(s.entries, e.Id(), Entry(e, s.nextSeq));
    if evicted.Some? { WorstIsVictim(s.entries, evicted.value); }
  }

  /** A stored SOS leaves only by expiry: no offer removes it. */
  lemma SosStays(s: StoreState, e: Envelope, now: nat, id: EnvelopeId)
    requires Valid(s) && id in s.entries && s.entries[id].envelope.priority.Sos?
    ensures var s' := AcceptStep(s, e, now).0;
            id in s'.entries && s'.entries[id] == s.entries[id]
  {
    AcceptEffect(s, e, now);
  }

  function Unexpired(entries: Entries, now: nat): Entries {
    map id | id in entries && !entries[id].envelope.IsExpired(now) :: entries[id]
  }

  datatype StoreEvent = Accepting(envelope: Envelope, now: nat) | Sweeping(now: nat)

  ghost function EventStep(s: StoreState, event: StoreEvent): StoreState {
    match event
    case Accepting(e, now) => AcceptStep(s, e, now).0
    case Sweeping(now) => s.(entries := Unexpired(s.entries, now))
  }

  ghost function AfterEvents(s: StoreState, events: seq<StoreEvent>): StoreState {
    if events == [] then s else EventStep(AfterEvents(s, events[..|events| - 1]), events[|events| - 1])
  }

  lemma PurgeKeepsValid(s: StoreState, now: nat)
    requires Valid(s)
    ensures Valid(s.(entries := Unexpired(s.entries, now)))
  {
    SubsetSize(Unexpired(s.entries, now).Keys, s.entries.Keys);
    assert |Unexpired(s.entries, now).Keys| == |Unexpired(s.entries, now)| && |s.entries.Keys| == |s.entries|;
  }

  /** In every state any offers and purges can lead to, the store is within capacity with one oldest least urgent
      entry, and an SOS once stored is still there unless a purge came at or after its expiry. */
  lemma {:induction false} SosSurvives(s: StoreState, events: seq<StoreEvent>, id: EnvelopeId)
    requires Valid(s)
    ensures var s' := AfterEvents(s, events);
            && Valid(s') && s'.capacity == s.capacity
            && (id in s.entries && s.entries[id].envelope.priority.Sos?
                && (forall event | event in events && event.Sweeping? :: event.now < s.entries[id].envelope.expiresAt)
                ==> id in s'.entries && s'.entries[id] == s.entries[id])
    decreases |events|
  {
    if events == [] {
    } else {
      var before, last := events[..|events| - 1], events[|events| - 1];
      assert last in events && forall event | event in before :: event in events;
      SosSurvives(s, before, id);
      var mid := AfterEvents(s, before);
      match last
      case Accepting(e, now) =>
        AcceptEffect(mid, e, now);
        if id in mid.entries && mid.entries[id].envelope.priority.Sos? { SosStays(mid, e, now, id); }
      case Sweeping(now) => PurgeKeepsValid(mid, now);
    }
  }

  /** Exactly when a stored SOS is still there, if it is not offered again: when no sweep came at or after its
      expiry. */
  lemma {:induction false} SosHeldIff(s: StoreState, events: seq<StoreEvent>, id: EnvelopeId)
    requires Valid(s) && id in s.entries && s.entries[id].envelope.priority.Sos?
    requires forall event | event in events && event.Accepting? :: event.envelope.Id() != id
    ensures id in AfterEvents(s, events).entries
       <==> forall event | event in events && event.Sweeping? :: event.now < s.entries[id].envelope.expiresAt
    decreases |events|
  {
    if events == [] {
    } else {
      var before, last := events[..|events| - 1], events[|events| - 1];
      assert last in events && forall event | event in events :: event in before || event == last;
      assert forall event | event in before :: event in events;
      SosHeldIff(s, before, id);
      SosSurvives(s, before, id);
      SosHeldStep(AfterEvents(s, before), last, id);
    }
  }

  /** One event: an SOS that is there stays unless it is swept at or after its expiry; one that is gone stays away
      unless it is offered. */
  lemma SosHeldStep(s: StoreState, event: StoreEvent, id: EnvelopeId)
    requires Valid(s) && (event.Accepting? ==> event.envelope.Id() != id)
    ensures id in EventStep(s, event).entries ==> id in s.entries
    ensures id in s.entries && s.entries[id].envelope.priority.Sos? ==>
              (id in EventStep(s, event).entries
               <==> (event.Sweeping? ==> event.now < s.entries[id].envelope.expiresAt))
  {
    if event.Accepting? {
      AcceptEffect(s, event.envelope, event.now);
      if id in s.entries && s.entries[id].envelope.priority.Sos? { SosStays(s, event.envelope, event.now, id); }
    }
  }

  function DecrementTtl(e: Envelope): Option<Envelope> {
    if e.ttlHops <= 1 then None else Some(e.(ttlHops := e.ttlHops - 1))
  }

  /** Envelopes held that an exact summary, or a Bloom filter, says the peer lacks. */
  function MissingFrom(s: StoreState, peer: set<EnvelopeId>): set<Envelope> {
    set id | id in s.entries && id !in peer :: s.entries[id].envelope
  }

  function MissingByFilter(s: StoreState, hash: Bloom.Hash, filter: Bloom.BloomFilter): set<Envelope>
    requires filter.Valid()
  {
    set id | id in s.entries && !Bloom.Contains(filter, hash, id) :: s.entries[id].envelope
  }

  /** Floating-point sizing is left abstract: any parameters in the range the parser accepts. */
  type Parameters = p: (nat, nat) |
      Bloom.MIN_BITS <= p.0 < U32_LIMIT && Bloom.MIN_HASHES <= p.1 <= Bloom.MAX_HASHES
    witness (64, 1)

  type Sizing = nat -> Parameters

  ghost function SummaryFilter(s: StoreState, hash: Bloom.Hash, sizing: Sizing): Bloom.BloomFilter {
    Bloom.FilterOf(hash, sizing(|s.entries|).0, sizing(|s.entries|).1, s.entries.Keys)
  }

  /** The Bloom summary refines the exact one: what it makes a peer send is part of what is really missing,
      and what it holds back are its false positives, nothing more. */
  lemma BloomRefinesExact(s: StoreState, peer: StoreState, hash: Bloom.Hash, sizing: Sizing)
    requires Valid(s)
    ensures var filter := SummaryFilter(peer, hash, sizing);
            && filter.Valid()
            && MissingByFilter(s, hash, filter) <= MissingFrom(s, peer.entries.Keys)
            && (forall e | e in MissingFrom(s, peer.entries.Keys) - MissingByFilter(s, hash, filter) ::
                  e.Id() !in peer.entries && Bloom.Contains(filter, hash, e.Id()))
  {
    var (numBits, numHashes) := sizing(|peer.entries|);
    forall id {
      Bloom.FilterMembership(hash, numBits, numHashes, peer.entries.Keys, id);
    }
  }

  class Store {
    const capacity: nat
    var entries: Entries
    var nextSeq: nat

    function View(): StoreState
      reads this
    {
      StoreState(capacity, entries, nextSeq)
    }

    constructor (capacity: nat)
      ensures View() == Empty(capacity)
    {
      this.capacity, entries, nextSeq := capacity, map[], 0;
    }

    method WorstEntryId() returns (worst: Option<EnvelopeId>)
      ensures worst.None? <==> |entries| == 0
      ensures worst.Some? ==> IsWorst(entries, worst.value)
    {
      worst := None;
      var rest := entries.Keys;
      while rest != {}
        invariant rest <= entries.Keys
        invariant worst.None? <==> rest == entries.Keys
        invariant worst.Some? ==> worst.value in entries && worst.value !in rest
        invariant worst.Some? ==>
                    forall id | id in entries && id !in rest :: AtMostAsBad(entries[id], entries[worst.value])
        decreases rest
      {
        var id :| id in rest;
        if worst.None? || AtMostAsBad(entries[worst.value], entries[id]) { worst := Some(id); }
        rest := rest - {id};
      }
    }

    method Accept(e: Envelope, now: nat) returns (outcome: Accept, evicted: Option<EnvelopeId>)
      requires Valid(View())
      modifies this
      ensures (View(), outcome, evicted) == AcceptStep(old(View()), e, now)
      ensures outcome.Expired? <==> e.Id() !in old(entries) && e.expiresAt <= now
      ensures outcome.Duplicate? <==> e.Id() in old(entries)
      ensures Valid(View())
    {
      AcceptEffect(View(), e, now);
      AcceptAnswers(View(), e, now);
      if e.Id() in entries { return Duplicate, None; }
      if e.IsExpired(now) { return Expired, None; }
      if e.ttlHops == 0 { return TtlExhausted, None; }
      if |entries| >= capacity {
        outcome, evicted := AcceptFull(e);
      } else {
        entries, nextSeq := entries[e.Id() := Entry(e, nextSeq)], nextSeq + 1;
        return New, None;
      }
    }

    /** The part of accepting in which room has to be made. */
    method AcceptFull(e: Envelope) returns (outcome: Accept, evicted: Option<EnvelopeId>)
      requires Valid(View()) && |entries| >= capacity
      modifies this
      ensures (View(), outcome, evicted) == FullStep(old(View()), e)
    {
      evicted := None;
      var worst := WorstEntryId();
      if worst.Some? {
        WorstIsUnique(View(), worst.value, Worst(entries));
        if e.priority.Ordinal() >= entries[worst.value].envelope.priority.Ordinal() {
          return StoreFullLowerPriority, None;
        }
        entries := entries - {worst.value};
        evicted := worst;
      }
      if |entries| >= capacity { return StoreFullLowerPriority, evicted; }
      entries, nextSeq := entries[e.Id() := Entry(e, nextSeq)], nextSeq + 1;
      outcome := New;
    }

    method PurgeExpired(now: nat) returns (purged: seq<EnvelopeId>)
      requires Valid(View())
      modifies this`entries
      ensures entries == Unexpired(old(entries), now)
      ensures forall id :: id in entries <==> id in old(entries) && now < old(entries)[id].envelope.expiresAt
      ensures forall id :: id in purged <==> id in old(entries) && now >= old(entries)[id].envelope.expiresAt
      ensures |purged| == |old(entries)| - |entries| && Valid(View())
    {
      purged := [];
      var rest := entries.Keys;
      while rest != {}
        invariant rest <= old(entries).Keys
        invariant forall id :: id in purged <==>
                    id in old(entries) && id !in rest && now >= old(entries)[id].envelope.expiresAt
        invariant forall id :: id in entries <==>
                    id in old(entries) && (id in rest || now < old(entries)[id].envelope.expiresAt)
        invariant forall id | id in entries :: entries[id] == old(entries)[id]
        invariant |purged| == |old(entries)| - |entries|
        decreases rest
      {
        var id :| id in rest;
        rest := rest - {id};
        if entries[id].envelope.IsExpired(now) {
          purged := purged + [id];
          RemoveCount(entries, id);
          entries := entries - {id};
        }
      }
      assert |purged| >= 0;
    }

    method SummaryBloom(hash: Bloom.Hash, sizing: Sizing) returns (filter: Bloom.Filter)
      ensures fresh(filter) && fresh(filter.bits)
      ensures filter.Valid() && filter.View() == SummaryFilter(View(), hash, sizing)
    {
      var (numBits, numHashes) := sizing(|entries|);
      filter := new Bloom.Filter(numBits, numHashes);
      var rest := entries.Keys;
      while rest != {}
        invariant rest <= entries.Keys && filter.Valid() && fresh(filter.bits)
        invariant filter.members == Bloom.AllIndices(hash, numBits, numHashes, entries.Keys - rest)
        decreases rest
      {
        var id :| id in rest;
        filter.Insert(hash, id);
        rest := rest - {id};
      }
      assert entries.Keys - rest == entries.Keys;
    }

    method MissingFromBloom(hash: Bloom.Hash, filter: Bloom.BloomFilter) returns (missing: seq<Envelope>)
      requires filter.Valid() && Valid(View())
      ensures Enumerates(missing, MissingByFilter(View(), hash, filter))
    {
      missing := [];
      var rest := entries.Keys;
      while rest != {}
        invariant rest <= entries.Keys && Distinct(missing)
        invariant forall e :: e in missing <==>
                    exists id ::
                        id in entries && id !in rest && !Bloom.Contains(filter, hash, id) && e == entries[id].envelope
        invariant forall e | e in missing :: e.Id() in entries && e.Id() !in rest
        decreases rest
      {
        var id :| id in rest;
        rest := rest - {id};
        if !Bloom.Contains(filter, hash, id) {
          DistinctAppend(missing, entries[id].envelope);
          missing := missing + [entries[id].envelope];
        }
      }
    }
  }
}
