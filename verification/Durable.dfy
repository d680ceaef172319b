/** The memory index paired with the encrypted disk map (core/src/durable.rs, core/src/persistence.rs). */
module Durable {
  import opened Bytes
  import opened Collections
  import opened Wrappers
  import opened Envelopes
  import opened Engine
  import opened Urgency

  datatype MasterKey = MasterKey(id: nat)

  /** What one slot holds: wire bytes sealed under a key with an identity as associated data, or anything else. */
  datatype Record = Sealed(key: MasterKey, ad: EnvelopeId, plaintext: seq<byte>) | Junk(bytes: seq<byte>)

  type Disk = map<EnvelopeId, Record>

  function Seal(key: MasterKey, e: Envelope): Record {
    Sealed(key, e.Id(), ToBytes(e))
  }

  function Read(disk: Disk, key: MasterKey, id: EnvelopeId): Option<Result<Envelope>> {
    if id !in disk then None
    else
      match disk[id]
      case Sealed(k, ad, plaintext) => Some(if k == key && ad == id then FromBytes(plaintext) else Failure(OpenFailed))
      case Junk(_) => Some(Failure(OpenFailed))
  }

  /** The slot an envelope is read from is its own identity. Only sealing labels a record, so this holds of every
      disk these operations ever wrote, under whatever keys. */
  ghost predicate Labelled(disk: Disk) {
    forall id | id in disk && disk[id].Sealed? && disk[id].ad == id && FromBytes(disk[id].plaintext).Success? ::
      FromBytes(disk[id].plaintext).value.Id() == id
  }

  /** The disk a store stands for: one sealed record for each entry, and nothing else. */
  function Mirror(s: StoreState, key: MasterKey): Disk {
    map id | id in s.entries :: Seal(key, s.entries[id].envelope)
  }

  lemma MirrorSize(s: StoreState, key: MasterKey)
    ensures |Mirror(s, key)| == |s.entries|
  {
    assert Mirror(s, key).Keys == s.entries.Keys;
    assert |Mirror(s, key).Keys| == |Mirror(s, key)| && |s.entries.Keys| == |s.entries|;
  }

  lemma SealLabels(key: MasterKey, e: Envelope)
    ensures FromBytes(Seal(key, e).plaintext).Success? ==> FromBytes(Seal(key, e).plaintext).value == e
  {
    ParsePrint(e);
  }

  lemma MirrorLabelled(s: StoreState, key: MasterKey)
    requires Valid(s)
    ensures Labelled(Mirror(s, key))
  {
    forall id | id in s.entries
      ensures FromBytes(Seal(key, s.entries[id].envelope).plaintext).Success? ==>
                FromBytes(Seal(key, s.entries[id].envelope).plaintext).value.Id() == id
    {
      SealLabels(key, s.entries[id].envelope);
    }
  }

  // ----- disk writes -----

  datatype Write = Put(envelope: Envelope) | Remove(id: EnvelopeId)

  function Apply(disk: Disk, key: MasterKey, write: Write): Disk {
    match write
    case Put(e) => disk[e.Id() := Seal(key, e)]
    case Remove(id) => disk - {id}
  }

  function ApplyAll(disk: Disk, key: MasterKey, writes: seq<Write>): Disk
    decreases |writes|
  {
    if writes == [] then disk else ApplyAll(Apply(disk, key, writes[0]), key, writes[1..])
  }

  lemma ApplyFew(disk: Disk, key: MasterKey, first: Write, second: Write)
    ensures ApplyAll(disk, key, []) == disk
    ensures ApplyAll(disk, key, [first]) == Apply(disk, key, first)
    ensures ApplyAll(disk, key, [first, second]) == Apply(Apply(disk, key, first), key, second)
  {
    assert [first, second][1..] == [second] && [first][1..] == [];
    assert ApplyAll(Apply(disk, key, first), key, [second]) == Apply(Apply(disk, key, first), key, second) by {
      assert [second][1..] == [];
    }
  }

  ghost function AcceptWrites(s: StoreState, e: Envelope, now: nat): seq<Write> {
    WritesFor(e, AcceptStep(s, e, now).1, AcceptStep(s, e, now).2)
  }

  function WritesFor(e: Envelope, outcome: Accept, evicted: Option<EnvelopeId>): seq<Write> {
    (if evicted.Some? then [Remove(evicted.value)] else []) + (if outcome.New? then [Put(e)] else [])
  }

  function Removals(ids: seq<EnvelopeId>): seq<Write> {
    seq(|ids|, i requires 0 <= i < |ids| => Remove(ids[i]))
  }

  function Without(disk: Disk, ids: seq<EnvelopeId>): Disk {
    map id | id in disk && id !in ids :: disk[id]
  }

  lemma {:induction false} RemovalsApplied(disk: Disk, key: MasterKey, ids: seq<EnvelopeId>)
    ensures ApplyAll(disk, key, Removals(ids)) == Without(disk, ids)
  {
    if ids != [] {
      assert Removals(ids)[1..] == Removals(ids[1..]);
      RemovalsApplied(disk - {ids[0]}, key, ids[1..]);
      assert ids == [ids[0]] + ids[1..];
    } else {
      assert disk == Without(disk, ids);
    }
  }

  /** Slot by slot either the one disk or the other, and at least what they have in common. */
  ghost predicate Between(disk: Disk, before: Disk, after: Disk) {
    && (forall id | id in disk :: (id in before && disk[id] == before[id]) || (id in after && disk[id] == after[id]))
    && (forall id | id in before && id in after :: id in disk)
  }

  lemma MirrorInsert(s: StoreState, key: MasterKey, e: Envelope)
    ensures Mirror(Insert(s, e), key) == Apply(Mirror(s, key), key, Put(e))
  {
  }

  lemma MirrorRemove(s: StoreState, key: MasterKey, id: EnvelopeId)
    ensures Mirror(s.(entries := s.entries - {id}), key) == Apply(Mirror(s, key), key, Remove(id))
  {
  }

  /** What an offer can do to a store, as far as the disk is concerned. */
  ghost predicate Outcome(s: StoreState, e: Envelope, s': StoreState, outcome: Accept, evicted: Option<EnvelopeId>) {
    && (!outcome.New? ==> s' == s && evicted.None?)
    && (outcome.New? ==> e.Id() !in s.entries)
    && (outcome.New? ==> s' == Insert(if evicted.Some? then s.(entries := s.entries - {evicted.value}) else s, e))
    && (evicted.Some? ==> evicted.value in s.entries)
  }

  lemma AcceptOutcome(s: StoreState, e: Envelope, now: nat)
    requires Valid(s)
    ensures var (s', outcome, evicted) := AcceptStep(s, e, now);
            Outcome(s, e, s', outcome, evicted) && |s.entries| <= s.capacity && |s'.entries| <= s.capacity
  {
    AcceptEffect(s, e, now);
  }

  /** Both writes of an accept bring the disk to the new memory's image. */
  lemma WritesMirror(s: StoreState, key: MasterKey, e: Envelope, s': StoreState, outcome: Accept,
                     evicted: Option<EnvelopeId>)
    requires Outcome(s, e, s', outcome, evicted)
    ensures ApplyAll(Mirror(s, key), key, WritesFor(e, outcome, evicted)) == Mirror(s', key)
  {
    if evicted.Some? {
      ApplyFew(Mirror(s, key), key, Remove(evicted.value), Put(e));
      MirrorRemove(s, key, evicted.value);
      MirrorInsert(s.(entries := s.entries - {evicted.value}), key, e);
      assert WritesFor(e, outcome, evicted) == [Remove(evicted.value), Put(e)];
    } else if outcome.New? {
      ApplyFew(Mirror(s, key), key, Put(e), Put(e));
      MirrorInsert(s, key, e);
      assert WritesFor(e, outcome, evicted) == [Put(e)];
    }
  }

  lemma WritesCrash(s: StoreState, key: MasterKey, e: Envelope, s': StoreState, outcome: Accept,
                    evicted: Option<EnvelopeId>, k: nat)
    requires Outcome(s, e, s', outcome, evicted) && k <= |WritesFor(e, outcome, evicted)|
    requires |s.entries| <= s.capacity && |s'.entries| <= s.capacity
    ensures var disk := ApplyAll(Mirror(s, key), key, WritesFor(e, outcome, evicted)[..k]);
            && Between(disk, Mirror(s, key), Mirror(s', key))
            && |disk| <= s.capacity
            && (k == |WritesFor(e, outcome, evicted)| ==> disk == Mirror(s', key))
  {
    var writes, before := WritesFor(e, outcome, evicted), Mirror(s, key);
    MirrorSize(s, key);
    if k == |writes| {
      assert writes[..k] == writes;
      WritesMirror(s, key, e, s', outcome, evicted);
      MirrorSize(s', key);
    } else if k == 0 {
      assert writes[..k] == [];
      ApplyFew(before, key, Put(e), Put(e));
    } else {
      OneWrite(s, key, e, evicted.value);
      assert writes[..k] == [Remove(evicted.value)];
    }
  }

  lemma OneWrite(s: StoreState, key: MasterKey, e: Envelope, worst: EnvelopeId)
    requires worst in s.entries && e.Id() !in s.entries && |s.entries| <= s.capacity
    ensures var disk := ApplyAll(Mirror(s, key), key, [Remove(worst)]);
            && Between(disk, Mirror(s, key), Mirror(Insert(s.(entries := s.entries - {worst}), e), key))
            && |disk| <= s.capacity
  {
    ApplyFew(Mirror(s, key), key, Remove(worst), Remove(worst));
    MirrorRemove(s, key, worst);
    MirrorInsert(s.(entries := s.entries - {worst}), key, e);
    MirrorSize(s.(entries := s.entries - {worst}), key);
    RemoveCount(s.entries, worst);
  }

  /** A crash may come between any two writes of one accept. What is then on disk is, slot by slot, what was
      there before or what would have been there after; what is common to both is there; it fits the capacity;
      and when no write is missing the disk mirrors the memory again. */
  lemma AcceptCrash(s: StoreState, key: MasterKey, e: Envelope, now: nat, k: nat)
    requires Valid(s) && k <= |AcceptWrites(s, e, now)|
    ensures var disk := ApplyAll(Mirror(s, key), key, AcceptWrites(s, e, now)[..k]);
            var after := Mirror(AcceptStep(s, e, now).0, key);
            && Between(disk, Mirror(s, key), after)
            && |disk| <= s.capacity
            && (k == |AcceptWrites(s, e, now)| ==> disk == after)
  {
    AcceptOutcome(s, e, now);
    var (s', outcome, evicted) := AcceptStep(s, e, now);
    WritesCrash(s, key, e, s', outcome, evicted, k);
  }

  /** The same for a purge, which only removes. */
  lemma PurgeCrash(s: StoreState, key: MasterKey, now: nat, purged: seq<EnvelopeId>, k: nat)
    requires Valid(s) && k <= |purged|
    requires forall id :: id in purged <==> id in s.entries && now >= s.entries[id].envelope.expiresAt
    ensures var disk := ApplyAll(Mirror(s, key), key, Removals(purged)[..k]);
            var after := Mirror(s.(entries := Unexpired(s.entries, now)), key);
            && Between(disk, Mirror(s, key), after)
            && |disk| <= s.capacity
            && (k == |purged| ==> disk == after)
  {
    assert Removals(purged)[..k] == Removals(purged[..k]);
    RemovalsApplied(Mirror(s, key), key, purged[..k]);
    WithoutSome(Mirror(s, key), purged, k);
    MirrorSize(s, key);
    PurgedMirror(s, key, now, purged);
  }

  lemma WithoutSome(disk: Disk, ids: seq<EnvelopeId>, k: nat)
    requires k <= |ids|
    ensures Between(Without(disk, ids[..k]), disk, Without(disk, ids)) && |Without(disk, ids[..k])| <= |disk|
    ensures k == |ids| ==> Without(disk, ids[..k]) == Without(disk, ids)
  {
    var left := Without(disk, ids[..k]);
    SubsetSize(left.Keys, disk.Keys);
    assert |left.Keys| == |left| && |disk.Keys| == |disk|;
    forall id | id in ids[..k]
      ensures id in ids
    {
    }
    if k == |ids| { assert ids[..k] == ids; }
  }

  // ----- reload -----

  /** What one readable record leaves on the disk once it was offered: not what it evicted, and not itself unless
      it was taken. */
  function Kept(disk: Disk, id: EnvelopeId, outcome: Accept, evicted: Option<EnvelopeId>): Disk {
    var disk' := if evicted.Some? then disk - {evicted.value} else disk;
    if outcome.New? then disk' else disk' - {id}
  }

  ghost function OpenStep(memory: StoreState, disk: Disk, key: MasterKey, id: EnvelopeId, now: nat): (StoreState,
                          Disk) {
    match Read(disk, key, id)
    case None => (memory, disk)
    case Some(Failure(_)) => (memory, disk - {id})
    case Some(Success(e)) =>
      var (memory', outcome, evicted) := AcceptStep(memory, e, now);
      (memory', Kept(disk, id, outcome, evicted))
  }

  ghost function OpenAll(capacity: nat, disk: Disk, key: MasterKey, ids: seq<EnvelopeId>, now: nat): (StoreState,
                         Disk) {
    if ids == [] then (Empty(capacity), disk)
    else
      var (memory, disk') := OpenAll(capacity, disk, key, ids[..|ids| - 1], now);
      OpenStep(memory, disk', key, ids[|ids| - 1], now)
  }

  /** What a reload offers the empty store: the readable records, in the order the disk lists them. */
  ghost function Readable(disk: Disk, key: MasterKey, ids: seq<EnvelopeId>, now: nat): seq<Offer> {
    if ids == [] then []
    else
      var before := Readable(disk, key, ids[..|ids| - 1], now);
      match Read(disk, key, ids[|ids| - 1])
      case Some(Success(e)) => before + [Offer(e, now)]
      case _ => before
  }

  /** How far a reload has come after the slots in `ids`: of those, the disk keeps what the memory holds; the
      rest of the disk is untouched. */
  ghost predicate Reloaded(entries: Entries, disk: Disk, start: Disk, key: MasterKey, ids: seq<EnvelopeId>) {
    && (forall id :: id in disk <==> id in start && (id in ids ==> id in entries))
    && (forall id | id in disk :: disk[id] == start[id])
    && (forall id | id in entries :: id in ids && id in start && start[id] == Seal(key, entries[id].envelope))
  }

  lemma ReadFacts(disk: Disk, key: MasterKey, id: EnvelopeId, e: Envelope)
    requires Labelled(disk) && Read(disk, key, id) == Some(Success(e))
    ensures e.Id() == id && disk[id] == Seal(key, e)
  {
    PrintParse(disk[id].plaintext);
  }

  lemma ReloadEvicted(entries: Entries, disk: Disk, start: Disk, key: MasterKey, ids: seq<EnvelopeId>,
                      worst: EnvelopeId)
    requires Reloaded(entries, disk, start, key, ids) && worst in entries
    ensures Reloaded(entries - {worst}, disk - {worst}, start, key, ids)
  {
  }

  lemma ReloadInserted(entries: Entries, disk: Disk, start: Disk, key: MasterKey, ids: seq<EnvelopeId>, e: Envelope,
                       seqNo: nat)
    requires Reloaded(entries, disk, start, key, ids) && e.Id() in start && start[e.Id()] == Seal(key, e)
    requires e.Id() !in ids
    ensures Reloaded(entries[e.Id() := Entry(e, seqNo)], disk, start, key, ids + [e.Id()])
  {
    assert forall other :: other in ids + [e.Id()] <==> other in ids || other == e.Id();
  }

  lemma ReloadDropped(entries: Entries, disk: Disk, start: Disk, key: MasterKey, ids: seq<EnvelopeId>, id: EnvelopeId)
    requires Reloaded(entries, disk, start, key, ids) && id !in ids
    ensures Reloaded(entries, disk - {id}, start, key, ids + [id])
  {
    assert forall other :: other in ids + [id] <==> other in ids || other == id;
  }

  lemma ReloadMissing(entries: Entries, disk: Disk, start: Disk, key: MasterKey, ids: seq<EnvelopeId>, id: EnvelopeId)
    requires Reloaded(entries, disk, start, key, ids) && id !in ids && id !in disk
    ensures Reloaded(entries, disk, start, key, ids + [id])
  {
    ReloadDropped(entries, disk, start, key, ids, id);
    assert disk - {id} == disk;
  }

  lemma ReloadAccepted(memory: StoreState, disk: Disk, start: Disk, key: MasterKey, ids: seq<EnvelopeId>, e: Envelope,
                       memory': StoreState, outcome: Accept, evicted: Option<EnvelopeId>)
    requires Reloaded(memory.entries, disk, start, key, ids) && e.Id() !in ids
    requires e.Id() in start && start[e.Id()] == Seal(key, e)
    requires Outcome(memory, e, memory', outcome, evicted)
    ensures Reloaded(memory'.entries, Kept(disk, e.Id(), outcome, evicted), start, key, ids + [e.Id()])
  {
    if evicted.Some? {
      ReloadEvicted(memory.entries, disk, start, key, ids, evicted.value);
      ReloadInserted(memory.entries - {evicted.value}, disk - {evicted.value}, start, key, ids, e, memory.nextSeq);
    } else if outcome.New? {
      ReloadInserted(memory.entries, disk, start, key, ids, e, memory.nextSeq);
    } else {
      ReloadDropped(memory.entries, disk, start, key, ids, e.Id());
    }
  }

  /** A record that is still on the disk reads as it did at the start. */
  lemma ReadSame(entries: Entries, disk: Disk, start: Disk, key: MasterKey, ids: seq<EnvelopeId>, id: EnvelopeId)
    requires Reloaded(entries, disk, start, key, ids) && id !in ids
    ensures Read(disk, key, id) == Read(start, key, id)
  {
  }

  lemma ReloadReadable(memory: StoreState, disk: Disk, start: Disk, key: MasterKey, ids: seq<EnvelopeId>,
                       id: EnvelopeId, e: Envelope, now: nat)
    requires Valid(memory) && Labelled(start) && Reloaded(memory.entries, disk, start, key, ids) && id !in ids
    requires Read(start, key, id) == Some(Success(e))
    ensures var (memory', outcome, evicted) := AcceptStep(memory, e, now);
            Valid(memory') && Reloaded(memory'.entries, Kept(disk, id, outcome, evicted), start, key, ids + [id])
  {
    ReadFacts(start, key, id, e);
    AcceptOutcome(memory, e, now);
    AcceptValid(memory, e, now);
    var (memory', outcome, evicted) := AcceptStep(memory, e, now);
    ReloadAccepted(memory, disk, start, key, ids, e, memory', outcome, evicted);
  }

  lemma ReloadStep(memory: StoreState, disk: Disk, start: Disk, key: MasterKey, ids: seq<EnvelopeId>, id: EnvelopeId,
                   now: nat)
    requires Valid(memory) && Labelled(start) && Reloaded(memory.entries, disk, start, key, ids) && id !in ids
    ensures var (memory', disk') := OpenStep(memory, disk, key, id, now);
            Valid(memory') && Reloaded(memory'.entries, disk', start, key, ids + [id])
  {
    ReadSame(memory.entries, disk, start, key, ids, id);
    match Read(disk, key, id)
    case Some(Success(e)) =>
      ReloadReadable(memory, disk, start, key, ids, id, e, now);
    case Some(Failure(_)) =>
      ReloadDropped(memory.entries, disk, start, key, ids, id);
    case None =>
      ReloadMissing(memory.entries, disk, start, key, ids, id);
  }

  lemma {:induction false} OpenReloads(capacity: nat, disk: Disk, key: MasterKey, ids: seq<EnvelopeId>, now: nat)
    requires Labelled(disk) && Distinct(ids)
    ensures var (memory, disk') := OpenAll(capacity, disk, key, ids, now);
            Valid(memory) && Reloaded(memory.entries, disk', disk, key, ids)
    decreases |ids|
  {
    if ids == [] {
    } else {
      var before, id := ids[..|ids| - 1], ids[|ids| - 1];
      OpenReloads(capacity, disk, key, before, now);
      var (memory, disk') := OpenAll(capacity, disk, key, before, now);
      ReloadStep(memory, disk', disk, key, before, id, now);
      assert before + [id] == ids;
    }
  }

  /** A reload is the store's own fold over the readable records, nothing more: unreadable and vanished records
      never reach it. */
  lemma {:induction false} OpenFolds(capacity: nat, disk: Disk, key: MasterKey, ids: seq<EnvelopeId>, now: nat)
    requires Labelled(disk) && Distinct(ids)
    ensures OpenAll(capacity, disk, key, ids, now).0 == AcceptAll(Empty(capacity), Readable(disk, key, ids, now))
    decreases |ids|
  {
    if ids == [] {
    } else {
      var before, id := ids[..|ids| - 1], ids[|ids| - 1];
      OpenFolds(capacity, disk, key, before, now);
      var disk' := OpenAll(capacity, disk, key, before, now).1;
      assert Read(disk', key, id) == Read(disk, key, id) by { OpenReloads(capacity, disk, key, before, now); }
      if Read(disk, key, id).Some? && Read(disk, key, id).value.Success? {
        var offer := Offer(Read(disk, key, id).value.value, now);
        assert (Readable(disk, key, before, now) + [offer])[..|Readable(disk, key, before, now)|]
            == Readable(disk, key, before, now);
      }
    }
  }

  ghost predicate Lists(ids: seq<EnvelopeId>, disk: Disk) {
    Distinct(ids) && forall id :: id in ids <==> id in disk
  }

  /** After any reload, in any listing order, of a disk that may hold records of other keys or garbage, disk and
      memory agree; and only removals touched the disk. */
  lemma OpenMirrors(capacity: nat, disk: Disk, key: MasterKey, ids: seq<EnvelopeId>, now: nat)
    requires Labelled(disk) && Lists(ids, disk)
    ensures var (memory, disk') := OpenAll(capacity, disk, key, ids, now);
            && Valid(memory) && memory.capacity == capacity
            && disk' == Mirror(memory, key)
            && (forall id | id in disk' :: id in disk && disk'[id] == disk[id])
  {
    OpenReloads(capacity, disk, key, ids, now);
    OpenFolds(capacity, disk, key, ids, now);
    AcceptAllValid(capacity, Readable(disk, key, ids, now));
    ReloadedMirrors(OpenAll(capacity, disk, key, ids, now).0, OpenAll(capacity, disk, key, ids, now).1, disk, key, ids);
  }

  lemma ReloadedMirrors(memory: StoreState, disk': Disk, disk: Disk, key: MasterKey, ids: seq<EnvelopeId>)
    requires Lists(ids, disk) && Reloaded(memory.entries, disk', disk, key, ids)
    ensures disk' == Mirror(memory, key) && forall id | id in disk' :: id in disk && disk'[id] == disk[id]
  {
  }

  // ----- a reload that does not finish -----

  /** What one slot of a reload removes, in this order: an unreadable record; or what a readable one evicts, and
      itself if it is not taken. */
  ghost function SlotRemoves(memory: StoreState, disk: Disk, key: MasterKey, id: EnvelopeId,
                             now: nat): seq<EnvelopeId> {
    match Read(disk, key, id)
    case None => []
    case Some(Failure(_)) => [id]
    case Some(Success(e)) => RemovedFor(id, AcceptStep(memory, e, now).1, AcceptStep(memory, e, now).2)
  }

  function RemovedFor(id: EnvelopeId, outcome: Accept, evicted: Option<EnvelopeId>): seq<EnvelopeId> {
    (if evicted.Some? then [evicted.value] else []) + (if outcome.New? then [] else [id])
  }

  /** All the disk writes of a reload: removals only. */
  ghost function OpenRemoves(capacity: nat, disk: Disk, key: MasterKey, ids: seq<EnvelopeId>,
                             now: nat): seq<EnvelopeId> {
    if ids == [] then []
    else
      var before := ids[..|ids| - 1];
      var (memory, disk') := OpenAll(capacity, disk, key, before, now);
      OpenRemoves(capacity, disk, key, before, now) + SlotRemoves(memory, disk', key, ids[|ids| - 1], now)
  }

  /** These removals, each of a record that is there, lead from one disk to the other. */
  ghost predicate LeadsTo(disk: Disk, removes: seq<EnvelopeId>, disk': Disk) {
    && Distinct(removes) && (forall id | id in removes :: id in disk)
    && disk' == Without(disk, removes)
  }

  lemma LeadsOn(disk: Disk, first: seq<EnvelopeId>, disk': Disk, second: seq<EnvelopeId>, disk'': Disk)
    requires LeadsTo(disk, first, disk') && LeadsTo(disk', second, disk'')
    ensures LeadsTo(disk, first + second, disk'')
  {
    assert forall id :: id in first + second <==> id in first || id in second;
    forall i, j | 0 <= i < |first + second| && 0 <= j < |first + second| && (first + second)[i] == (first + second)[j]
      ensures i == j
    {
      assert i < |first| ==> first[i] in first;
      assert j < |first| ==> first[j] in first;
      assert i >= |first| ==> second[i - |first|] in second;
      assert j >= |first| ==> second[j - |first|] in second;
    }
  }

  lemma SlotLeads(memory: StoreState, disk: Disk, start: Disk, key: MasterKey, ids: seq<EnvelopeId>, id: EnvelopeId,
                  now: nat)
    requires Valid(memory) && Reloaded(memory.entries, disk, start, key, ids) && id !in ids
    ensures LeadsTo(disk, SlotRemoves(memory, disk, key, id, now), OpenStep(memory, disk, key, id, now).1)
  {
    match Read(disk, key, id)
    case None =>
    case Some(Failure(_)) =>
    case Some(Success(e)) =>
      AcceptOutcome(memory, e, now);
      KeptLeads(memory, disk, start, key, ids, id, e, AcceptStep(memory, e, now).0, AcceptStep(memory, e, now).1,
                AcceptStep(memory, e, now).2);
  }

  lemma KeptLeads(memory: StoreState, disk: Disk, start: Disk, key: MasterKey, ids: seq<EnvelopeId>, id: EnvelopeId,
                  e: Envelope,
                  memory': StoreState, outcome: Accept, evicted: Option<EnvelopeId>)
    requires Reloaded(memory.entries, disk, start, key, ids) && id !in ids && id in disk
    requires Outcome(memory, e, memory', outcome, evicted)
    ensures LeadsTo(disk, RemovedFor(id, outcome, evicted), Kept(disk, id, outcome, evicted))
  {
    if evicted.Some? { assert evicted.value in disk && RemovedFor(id, outcome, evicted) == [evicted.value]; }
  }

  lemma {:induction false} OpenLeads(capacity: nat, disk: Disk, key: MasterKey, ids: seq<EnvelopeId>, now: nat)
    requires Labelled(disk) && Distinct(ids)
    ensures LeadsTo(disk, OpenRemoves(capacity, disk, key, ids, now), OpenAll(capacity, disk, key, ids, now).1)
    decreases |ids|
  {
    if ids != [] {
      var before, id := ids[..|ids| - 1], ids[|ids| - 1];
      var (memory, disk') := OpenAll(capacity, disk, key, before, now);
      OpenReloads(capacity, disk, key, before, now);
      OpenLeads(capacity, disk, key, before, now);
      SlotLeads(memory, disk', disk, key, before, id, now);
      LeadsOn(disk, OpenRemoves(capacity, disk, key, before, now), disk', SlotRemoves(memory, disk', key, id, now),
              OpenStep(memory, disk', key, id, now).1);
    } else {
      assert disk == Without(disk, []);
    }
  }

  lemma WithoutLast(disk: Disk, ids: seq<EnvelopeId>)
    requires ids != [] && Distinct(ids) && forall id | id in ids :: id in disk
    ensures var before, last := ids[..|ids| - 1], ids[|ids| - 1];
            last in Without(disk, before) && Without(disk, ids) == Without(disk, before) - {last}
  {
    assert ids == ids[..|ids| - 1] + [ids[|ids| - 1]];
  }

  lemma {:induction false} WithoutSize(disk: Disk, ids: seq<EnvelopeId>)
    requires Distinct(ids) && forall id | id in ids :: id in disk
    ensures |Without(disk, ids)| == |disk| - |ids|
    decreases |ids|
  {
    if ids == [] {
      assert Without(disk, ids) == disk;
    } else {
      var before, last := ids[..|ids| - 1], ids[|ids| - 1];
      WithoutSize(disk, before);
      WithoutLast(disk, ids);
      RemoveCount(Without(disk, before), last);
    }
  }

  /** After some of the removals. */
  lemma SomeRemoved(disk: Disk, removes: seq<EnvelopeId>, disk': Disk, k: nat)
    requires LeadsTo(disk, removes, disk') && k <= |removes|
    ensures var left := Without(disk, removes[..k]);
            Between(left, disk, disk') && |left| == |disk| - k && (k == |removes| ==> left == disk')
  {
    assert forall id | id in removes[..k] :: id in removes;
    WithoutSize(disk, removes[..k]);
    WithoutSome(disk, removes, k);
  }

  /** A crash may come between any two writes of a reload. What is then on the disk is, slot by slot, what was
      there before or what the finished reload would have left; what is common to both is there; each write so
      far has removed exactly one record, so there are never more than before, though more than the new capacity
      until the surplus is gone; and it can be reloaded again. */
  lemma ReloadCrash(capacity: nat, disk: Disk, key: MasterKey, ids: seq<EnvelopeId>, now: nat, k: nat)
    requires Labelled(disk) && Lists(ids, disk) && k <= |OpenRemoves(capacity, disk, key, ids, now)|
    ensures var removes, after := OpenRemoves(capacity, disk, key, ids, now), OpenAll(capacity, disk, key, ids, now).1;
            var left := ApplyAll(disk, key, Removals(removes)[..k]);
            && Between(left, disk, after) && Labelled(left)
            && |left| == |disk| - k
            && (k == |removes| ==> left == after)
  {
    var removes := OpenRemoves(capacity, disk, key, ids, now);
    OpenLeads(capacity, disk, key, ids, now);
    assert Removals(removes)[..k] == Removals(removes[..k]);
    RemovalsApplied(disk, key, removes[..k]);
    SomeRemoved(disk, removes, OpenAll(capacity, disk, key, ids, now).1, k);
  }

  /** The live records readable under a key, up to a level of urgency. */
  ghost function LiveOnDisk(disk: Disk, key: MasterKey, now: nat, level: nat): set<EnvelopeId> {
    set id | id in disk && LiveRecord(disk, key, id, now) && Read(disk, key, id).value.value.priority.Ordinal() <= level
  }

  ghost predicate LiveRecord(disk: Disk, key: MasterKey, id: EnvelopeId, now: nat) {
    && Read(disk, key, id).Some? && Read(disk, key, id).value.Success?
    && Offer(Read(disk, key, id).value.value, now).Live()
  }

  lemma {:induction false} ReadableOffers(disk: Disk, key: MasterKey, ids: seq<EnvelopeId>, now: nat, level: nat)
    requires Labelled(disk)
    ensures Offered(Readable(disk, key, ids, now), level)
         == set id | id in ids && id in LiveOnDisk(disk, key, now, level)
  {
    if ids == [] {
    } else {
      var before, id := ids[..|ids| - 1], ids[|ids| - 1];
      ReadableOffers(disk, key, before, now, level);
      assert ids == before + [id];
      LiveAmong(before, id, LiveOnDisk(disk, key, now, level));
      ReadableMore(disk, key, before, id, now, level);
    }
  }

  lemma ReadableMore(disk: Disk, key: MasterKey, before: seq<EnvelopeId>, id: EnvelopeId, now: nat, level: nat)
    requires Labelled(disk)
    ensures Offered(Readable(disk, key, before + [id], now), level)
         == Offered(Readable(disk, key, before, now), level)
            + if id in LiveOnDisk(disk, key, now, level) then {id} else {}
  {
    assert (before + [id])[..|before|] == before;
    if Read(disk, key, id).Some? && Read(disk, key, id).value.Success? {
      var e := Read(disk, key, id).value.value;
      ReadFacts(disk, key, id, e);
      OfferedMore(Readable(disk, key, before, now), Offer(e, now), level);
    }
  }

  lemma LiveAmong(ids: seq<EnvelopeId>, id: EnvelopeId, live: set<EnvelopeId>)
    ensures (set x | x in ids + [id] && x in live) == (set x | x in ids && x in live) + if id in live then {id} else {}
  {
  }

  /** A reload into a smaller store keeps the most urgent of what is live, whatever order the disk lists it in. */
  lemma OpenKeepsMostUrgent(capacity: nat, disk: Disk, key: MasterKey, ids: seq<EnvelopeId>, now: nat, level: nat)
    requires Labelled(disk) && Lists(ids, disk)
    ensures TopAt(OpenAll(capacity, disk, key, ids, now).0, LiveOnDisk(disk, key, now, level), level)
  {
    OpenFolds(capacity, disk, key, ids, now);
    ReadableOffers(disk, key, ids, now, level);
    KeepsMostUrgent(capacity, Readable(disk, key, ids, now), level);
    assert LiveOnDisk(disk, key, now, level) == set id | id in ids && id in LiveOnDisk(disk, key, now, level);
  }

  function Contents(entries: Entries): map<EnvelopeId, Envelope> {
    map id | id in entries :: entries[id].envelope
  }

  /** Sizes the wire format can carry; every envelope that arrived in a frame has one. */
  predicate Fits(e: Envelope) {
    |e.sealed| < U32_LIMIT
  }

  lemma ReadMirror(s: StoreState, key: MasterKey, id: EnvelopeId)
    requires id in s.entries && Valid(s) && Fits(s.entries[id].envelope)
    ensures Read(Mirror(s, key), key, id) == Some(Success(s.entries[id].envelope))
  {
    ParsePrint(s.entries[id].envelope);
  }

  lemma LiveMirror(s: StoreState, key: MasterKey, now: nat)
    requires Valid(s) && forall id | id in s.entries :: Fits(s.entries[id].envelope)
    ensures LiveOnDisk(Mirror(s, key), key, now, 3) == Unexpired(s.entries, now).Keys
  {
    forall id | id in s.entries
      ensures id in LiveOnDisk(Mirror(s, key), key, now, 3) <==> id in Unexpired(s.entries, now)
    {
      ReadMirror(s, key, id);
    }
  }

  lemma FullHeld(s: StoreState)
    ensures Held(s, 3) == s.entries.Keys
  {
  }

  lemma ReopenKeys(s: StoreState, key: MasterKey, capacity: nat, ids: seq<EnvelopeId>, now: nat)
    requires Valid(s) && (forall id | id in s.entries :: Fits(s.entries[id].envelope))
    requires Lists(ids, Mirror(s, key)) && |Unexpired(s.entries, now)| <= capacity
    ensures OpenAll(capacity, Mirror(s, key), key, ids, now).0.entries.Keys == Unexpired(s.entries, now).Keys
  {
    var memory := OpenAll(capacity, Mirror(s, key), key, ids, now).0;
    MirrorLabelled(s, key);
    assert memory.capacity == capacity by { OpenMirrors(capacity, Mirror(s, key), key, ids, now); }
    OpenKeepsMostUrgent(capacity, Mirror(s, key), key, ids, now, 3);
    LiveMirror(s, key, now);
    FullHeld(memory);
    assert |Unexpired(s.entries, now).Keys| == |Unexpired(s.entries, now)|;
    SubsetSize(memory.entries.Keys, Unexpired(s.entries, now).Keys);
  }

  /** Restarting with enough room brings back exactly the unexpired entries, each as it was. */
  lemma ReopenRestores(s: StoreState, key: MasterKey, capacity: nat, ids: seq<EnvelopeId>, now: nat)
    requires Valid(s) && (forall id | id in s.entries :: Fits(s.entries[id].envelope))
    requires Lists(ids, Mirror(s, key)) && |Unexpired(s.entries, now)| <= capacity
    ensures var (memory, disk) := OpenAll(capacity, Mirror(s, key), key, ids, now);
            Contents(memory.entries) == Contents(Unexpired(s.entries, now)) && disk == Mirror(memory, key)
  {
    var start := Mirror(s, key);
    var memory := OpenAll(capacity, start, key, ids, now).0;
    ReopenKeys(s, key, capacity, ids, now);
    MirrorLabelled(s, key);
    OpenMirrors(capacity, start, key, ids, now);
    assert forall id | id in memory.entries :: start[id] == Seal(key, memory.entries[id].envelope) by {
      OpenReloads(capacity, start, key, ids, now);
    }
    forall id | id in memory.entries
      ensures memory.entries[id].envelope == s.entries[id].envelope
    {
      SealInjective(key, memory.entries[id].envelope, s.entries[id].envelope);
    }
    SameContents(memory.entries, Unexpired(s.entries, now));
  }

  lemma SameContents(a: Entries, b: Entries)
    requires a.Keys == b.Keys && forall id | id in a :: a[id].envelope == b[id].envelope
    ensures Contents(a) == Contents(b)
  {
  }

  /** A record names one envelope, hop count included, even one too long to be read back. */
  lemma SealInjective(key: MasterKey, e: Envelope, f: Envelope)
    requires Seal(key, e) == Seal(key, f)
    ensures e == f
  {
    IdIgnoresOnlyHops(e, f);
    assert ToBytes(e)[|Front(e)| + 1] == e.ttlHops && ToBytes(f)[|Front(f)| + 1] == f.ttlHops;
  }

  // ----- whole lives of a store -----

  /** What the owner does with an open store. */
  datatype Operation = Offering(envelope: Envelope, now: nat) | Purging(now: nat, purged: seq<EnvelopeId>)

  datatype Life = Life(memory: StoreState, disk: Disk, key: MasterKey)

  /** A store that is open, or a disk that was left behind, with the capacity of the store that last ran on it. */
  datatype Machine = Up(life: Life) | Down(disk: Disk, limit: nat)

  /** The process may die after any number `k` of the writes of the operation, or of the reload, it is in; and it
      may come back with another size or another key. */
  datatype Event =
    | Finish(op: Operation)
    | Die(op: Operation, k: nat)
    | Reopen(key: MasterKey, capacity: nat, ids: seq<EnvelopeId>, now: nat)
    | DieReopening(key: MasterKey, capacity: nat, ids: seq<EnvelopeId>, now: nat, k: nat)

  ghost function MemoryAfter(s: StoreState, op: Operation): StoreState {
    match op
    case Offering(e, now) => AcceptStep(s, e, now).0
    case Purging(now, _) => s.(entries := Unexpired(s.entries, now))
  }

  ghost function Writes(s: StoreState, op: Operation): seq<Write> {
    match op
    case Offering(e, now) => AcceptWrites(s, e, now)
    case Purging(_, purged) => Removals(purged)
  }

  ghost function DiskAfter(life: Life, op: Operation, k: nat): Disk
    requires k <= |Writes(life.memory, op)|
  {
    ApplyAll(life.disk, life.key, Writes(life.memory, op)[..k])
  }

  ghost function Finished(life: Life, op: Operation): Life {
    Life(MemoryAfter(life.memory, op), DiskAfter(life, op, |Writes(life.memory, op)|), life.key)
  }

  /** A purge walks the expired identities in some order. */
  ghost predicate Purges(s: StoreState, op: Operation) {
    op.Purging? ==> forall id :: id in op.purged <==> id in s.entries && op.now >= s.entries[id].envelope.expiresAt
  }

  /** A reload lists what is on the disk in some order. */
  ghost predicate Possible(m: Machine, event: Event) {
    match event
    case Finish(op) => m.Up? && Purges(m.life.memory, op)
    case Die(op, k) => m.Up? && Purges(m.life.memory, op) && k <= |Writes(m.life.memory, op)|
    case Reopen(_, _, ids, _) => m.Down? && Lists(ids, m.disk)
    case DieReopening(key, capacity, ids, now, k) =>
      m.Down? && Lists(ids, m.disk) && k <= |OpenRemoves(capacity, m.disk, key, ids, now)|
  }

  ghost function Next(m: Machine, event: Event): Machine
    requires Possible(m, event)
  {
    match event
    case Finish(op) => Up(Finished(m.life, op))
    case Die(op, k) => Down(DiskAfter(m.life, op, k), m.life.memory.capacity)
    case Reopen(key, capacity, ids, now) =>
      var (memory, disk) := OpenAll(capacity, m.disk, key, ids, now);
      Up(Life(memory, disk, key))
    case DieReopening(key, capacity, ids, now, k) =>
      Down(ApplyAll(m.disk, key, Removals(OpenRemoves(capacity, m.disk, key, ids, now))[..k]), m.limit)
  }

  ghost predicate PossibleRun(m: Machine, events: seq<Event>)
    decreases |events|
  {
    events != [] ==> Possible(m, events[0]) && PossibleRun(Next(m, events[0]), events[1..])
  }

  ghost function MachineAfter(m: Machine, events: seq<Event>): Machine
    requires PossibleRun(m, events)
    decreases |events|
  {
    if events == [] then m else MachineAfter(Next(m, events[0]), events[1..])
  }

  ghost predicate Mirrored(life: Life) {
    Valid(life.memory) && life.disk == Mirror(life.memory, life.key)
  }

  /** An open store's disk is the image of its memory; one left behind can be reloaded, and holds no more records
      than the store that last ran on it had room for. */
  ghost predicate MachineOk(m: Machine) {
    match m
    case Up(life) => Mirrored(life) && |life.disk| <= life.memory.capacity
    case Down(disk, limit) => Labelled(disk) && |disk| <= limit
  }

  lemma BetweenLabelled(disk: Disk, before: Disk, after: Disk)
    requires Between(disk, before, after) && Labelled(before) && Labelled(after)
    ensures Labelled(disk)
  {
  }

  lemma AcceptValid(s: StoreState, e: Envelope, now: nat)
    requires Valid(s)
    ensures Valid(AcceptStep(s, e, now).0)
  {
    AcceptEffect(s, e, now);
  }

  lemma MemoryAfterValid(s: StoreState, op: Operation)
    requires Valid(s)
    ensures Valid(MemoryAfter(s, op))
  {
    match op
    case Offering(e, now) => AcceptValid(s, e, now);
    case Purging(now, _) => PurgeKeepsValid(s, now);
  }

  /** Whatever prefix of an operation's writes reached the disk, each slot is as just before or just after the
      operation, and all of it fits the capacity. */
  lemma CrashBetween(life: Life, op: Operation, k: nat)
    requires Mirrored(life) && Purges(life.memory, op) && k <= |Writes(life.memory, op)|
    ensures Between(DiskAfter(life, op, k), life.disk, Mirror(MemoryAfter(life.memory, op), life.key))
    ensures |DiskAfter(life, op, k)| <= life.memory.capacity
  {
    match op
    case Offering(e, now) => AcceptCrash(life.memory, life.key, e, now, k);
    case Purging(now, purged) => PurgeCrash(life.memory, life.key, now, purged, k);
  }

  /** Some of the slots of a disk, each with the same record. */
  ghost predicate Part(disk: Disk, whole: Disk) {
    forall id | id in disk :: id in whole && disk[id] == whole[id]
  }

  lemma RemovalsLeavePart(disk: Disk, key: MasterKey, ids: seq<EnvelopeId>, k: nat)
    requires k <= |ids|
    ensures Part(ApplyAll(disk, key, Removals(ids)[..k]), disk)
  {
    assert Removals(ids)[..k] == Removals(ids[..k]);
    RemovalsApplied(disk, key, ids[..k]);
  }

  lemma WritesLeavePart(disk: Disk, key: MasterKey, e: Envelope, outcome: Accept, evicted: Option<EnvelopeId>, k: nat)
    requires (evicted.Some? ==> outcome.New?) && k < |WritesFor(e, outcome, evicted)|
    ensures Part(ApplyAll(disk, key, WritesFor(e, outcome, evicted)[..k]), disk)
  {
    var writes := WritesFor(e, outcome, evicted);
    if k == 0 {
      assert writes[..k] == [];
    } else {
      assert writes[..k] == [Remove(evicted.value)];
      ApplyFew(disk, key, Remove(evicted.value), Put(e));
    }
  }

  /** An operation puts a record only as its last write: a crash in the middle of an offer or a purge leaves part of
      the disk as it was before, and one after the last write the image of the memory after. */
  lemma CrashLeavesPart(life: Life, op: Operation, k: nat)
    requires Mirrored(life) && Purges(life.memory, op) && k <= |Writes(life.memory, op)|
    ensures if k < |Writes(life.memory, op)| || op.Purging?
            then Part(DiskAfter(life, op, k), Mirror(life.memory, life.key))
            else DiskAfter(life, op, k) == Mirror(MemoryAfter(life.memory, op), life.key)
  {
    match op
    case Offering(e, now) =>
      AcceptCrash(life.memory, life.key, e, now, k);
      AcceptOutcome(life.memory, e, now);
      if k < |Writes(life.memory, op)| {
        WritesLeavePart(life.disk, life.key, e, AcceptStep(life.memory, e, now).1, AcceptStep(life.memory, e, now).2,
                        k);
      }
    case Purging(_, purged) => RemovalsLeavePart(life.disk, life.key, purged, k);
  }

  lemma CrashLabelled(life: Life, op: Operation, k: nat)
    requires Mirrored(life) && Purges(life.memory, op) && k <= |Writes(life.memory, op)|
    ensures Labelled(DiskAfter(life, op, k))
  {
    var after := MemoryAfter(life.memory, op);
    CrashBetween(life, op, k);
    MirrorLabelled(life.memory, life.key);
    MemoryAfterValid(life.memory, op);
    MirrorLabelled(after, life.key);
    BetweenLabelled(DiskAfter(life, op, k), life.disk, Mirror(after, life.key));
  }

  lemma FinishMirrors(life: Life, op: Operation)
    requires Mirrored(life) && Purges(life.memory, op)
    ensures Mirrored(Finished(life, op))
  {
    match op
    case Offering(e, now) =>
      AcceptValid(life.memory, e, now);
      AcceptCrash(life.memory, life.key, e, now, |AcceptWrites(life.memory, e, now)|);
    case Purging(now, purged) =>
      PurgeCrash(life.memory, life.key, now, purged, |purged|);
      PurgeKeepsValid(life.memory, now);
  }

  lemma EventKeeps(m: Machine, event: Event)
    requires MachineOk(m) && Possible(m, event)
    ensures MachineOk(Next(m, event))
  {
    match event
    case Finish(op) =>
      FinishMirrors(m.life, op);
      MirrorSize(Finished(m.life, op).memory, m.life.key);
    case Die(op, k) =>
      CrashBetween(m.life, op, k);
      CrashLabelled(m.life, op, k);
    case Reopen(key, capacity, ids, now) =>
      OpenMirrors(capacity, m.disk, key, ids, now);
      MirrorSize(OpenAll(capacity, m.disk, key, ids, now).0, key);
    case DieReopening(key, capacity, ids, now, k) => ReloadCrash(capacity, m.disk, key, ids, now, k);
  }

  /** Over a whole life, with crashes at any write of an offer, a purge or a reload, resizes, key changes and
      reloads in any order: whenever the store is open and no operation is under way the disk is the sealed image
      of the memory; and whatever a crash leaves fits the store that last ran, and can be reloaded. */
  lemma {:induction false} LifeMirrors(m: Machine, events: seq<Event>)
    requires MachineOk(m) && PossibleRun(m, events)
    ensures MachineOk(MachineAfter(m, events))
    decreases |events|
  {
    if events == [] {
    } else {
      EventKeeps(m, events[0]);
      LifeMirrors(Next(m, events[0]), events[1..]);
    }
  }

  lemma FinishWrites(disk: Disk, key: MasterKey, e: Envelope, outcome: Accept, evicted: Option<EnvelopeId>)
    ensures var disk' := if evicted.Some? then disk - {evicted.value} else disk;
            ApplyAll(disk, key, WritesFor(e, outcome, evicted))
            == if outcome.New? then disk'[e.Id() := Seal(key, e)] else disk'
  {
    if evicted.Some? {
      ApplyFew(disk, key, Remove(evicted.value), Put(e));
    } else {
      ApplyFew(disk, key, Put(e), Put(e));
    }
  }

  lemma FinishAccept(life: Life, e: Envelope, now: nat)
    requires Mirrored(life)
    ensures var (_, outcome, evicted) := AcceptStep(life.memory, e, now);
            var disk := if evicted.Some? then life.disk - {evicted.value} else life.disk;
            Finished(life, Offering(e, now)).disk == if outcome.New? then disk[e.Id() := Seal(life.key, e)] else disk
  {
    var writes := AcceptWrites(life.memory, e, now);
    assert writes[..|writes|] == writes;
    FinishWrites(life.disk, life.key, e, AcceptStep(life.memory, e, now).1, AcceptStep(life.memory, e, now).2);
  }

  lemma FinishPurge(life: Life, now: nat, purged: seq<EnvelopeId>)
    ensures Finished(life, Purging(now, purged)).disk == Without(life.disk, purged)
  {
    assert Removals(purged)[..|purged|] == Removals(purged);
    RemovalsApplied(life.disk, life.key, purged);
  }

  lemma PurgedMirror(s: StoreState, key: MasterKey, now: nat, purged: seq<EnvelopeId>)
    requires forall id :: id in purged <==> id in s.entries && now >= s.entries[id].envelope.expiresAt
    ensures Mirror(s.(entries := Unexpired(s.entries, now)), key) == Without(Mirror(s, key), purged)
  {
  }

  // ----- the store object -----

  lemma RemovalsAppend(first: seq<EnvelopeId>, second: seq<EnvelopeId>)
    ensures Removals(first + second) == Removals(first) + Removals(second)
  {
  }

  class DurableStore {
    const memory: Store
    const key: MasterKey
    var disk: Disk
    /** Every write to the disk since the store was created, in order. */
    ghost var log: seq<Write>

    ghost function View(): Life
      reads this, memory
    {
      Life(memory.View(), disk, key)
    }

    /** `ids` is what listing the database returned. */
    constructor Open(disk: Disk, key: MasterKey, ids: seq<EnvelopeId>, capacity: nat, now: nat)
      requires Labelled(disk) && Lists(ids, disk)
      ensures fresh(memory) && this.key == key
      ensures (memory.View(), this.disk) == OpenAll(capacity, disk, key, ids, now)
      ensures log == Removals(OpenRemoves(capacity, disk, key, ids, now))
      ensures Mirrored(View()) && memory.capacity == capacity
    {
      memory := new Store(capacity);
      this.key, this.disk, log := key, disk, [];
      new;
      for i := 0 to |ids|
        invariant (memory.View(), this.disk) == OpenAll(capacity, disk, key, ids[..i], now)
        invariant log == Removals(OpenRemoves(capacity, disk, key, ids[..i], now))
        invariant Valid(memory.View())
      {
        assert ids[..i + 1][..i] == ids[..i];
        RemovalsAppend(OpenRemoves(capacity, disk, key, ids[..i], now),
                       SlotRemoves(memory.View(), this.disk, key, ids[i], now));
        Reload(ids[i], now);
      }
      assert ids[..|ids|] == ids;
      OpenMirrors(capacity, disk, key, ids, now);
    }

    /** One slot of a reload. */
    method Reload(id: EnvelopeId, now: nat)
      requires Valid(memory.View())
      modifies this, memory
      ensures (memory.View(), disk) == OpenStep(old(memory.View()), old(disk), key, id, now)
      ensures log == old(log) + Removals(SlotRemoves(old(memory.View()), old(disk), key, id, now))
      ensures Valid(memory.View())
    {
      match Read(disk, key, id)
      case None =>
      case Some(Failure(_)) => RemoveOne(id);
      case Some(Success(e)) =>
        var outcome, evicted := memory.Accept(e, now);
        Keep(id, outcome, evicted);
    }

    method Keep(id: EnvelopeId, outcome: Accept, evicted: Option<EnvelopeId>)
      modifies `disk, `log
      ensures disk == Kept(old(disk), id, outcome, evicted)
      ensures log == old(log) + Removals(RemovedFor(id, outcome, evicted))
    {
      if evicted.Some? { RemoveOne(evicted.value); }
      if !outcome.New? { RemoveOne(id); }
      var evictions := if evicted.Some? then [evicted.value] else [];
      RemovalsAppend(evictions, if outcome.New? then [] else [id]);
    }

    method RemoveOne(id: EnvelopeId)
      modifies `disk, `log
      ensures disk == old(disk) - {id} && log == old(log) + [Remove(id)]
    {
      disk, log := disk - {id}, log + [Remove(id)];
    }

    method Accept(e: Envelope, now: nat) returns (outcome: Accept)
      requires Mirrored(View())
      modifies this, memory
      ensures View() == Finished(old(View()), Offering(e, now))
      ensures log == old(log) + AcceptWrites(old(memory.View()), e, now)
      ensures outcome == AcceptStep(old(memory.View()), e, now).1
      ensures Mirrored(View())
    {
      ghost var before := View();
      FinishMirrors(before, Offering(e, now));
      FinishAccept(before, e, now);
      var evicted;
      outcome, evicted := memory.Accept(e, now);
      Record(e, outcome, evicted);
    }

    method Record(e: Envelope, outcome: Accept, evicted: Option<EnvelopeId>)
      modifies `disk, `log
      ensures var disk' := if evicted.Some? then old(disk) - {evicted.value} else old(disk);
              disk == if outcome.New? then disk'[e.Id() := Seal(key, e)] else disk'
      ensures log == old(log) + WritesFor(e, outcome, evicted)
    {
      if evicted.Some? { RemoveOne(evicted.value); }
      if outcome.New? { disk, log := disk[e.Id() := Seal(key, e)], log + [Put(e)]; }
    }

    /** `purged` is the order in which the expired were found. */
    method PurgeExpired(now: nat) returns (count: nat, ghost purged: seq<EnvelopeId>)
      requires Mirrored(View())
      modifies this, memory
      ensures Purges(old(memory.View()), Purging(now, purged)) && View() == Finished(old(View()), Purging(now, purged))
      ensures log == old(log) + Removals(purged)
      ensures Mirrored(View())
      ensures count == |old(memory.entries)| - |memory.entries|
    {
      ghost var before := View();
      var expired := memory.PurgeExpired(now);
      count, purged := |expired|, expired;
      FinishPurge(before, now, expired);
      FinishMirrors(before, Purging(now, expired));
      RemoveAll(expired);
    }

    method RemoveAll(ids: seq<EnvelopeId>)
      modifies `disk, `log
      ensures disk == Without(old(disk), ids)
      ensures log == old(log) + Removals(ids)
    {
      for i := 0 to |ids|
        invariant disk == Without(old(disk), ids[..i])
        invariant log == old(log) + Removals(ids[..i])
      {
        assert ids[..i + 1] == ids[..i] + [ids[i]];
        RemovalsAppend(ids[..i], [ids[i]]);
        RemoveOne(ids[i]);
      }
      assert ids[..|ids|] == ids;
    }
  }
}
