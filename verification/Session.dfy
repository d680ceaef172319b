/** Two Double Ratchet parties joined by a network that loses, repeats and reorders messages.

    Ratchet keys are numbered in the order they come into use: key 0 is the responder's, key 1 the
    initiator's, and from then on they alternate. `sent[i]` records the messages sealed while key `i` was
    its owner's ratchet key; a number spent on a plaintext too large to seal leaves a gap. */
module Session {
  import opened Bytes
  import opened Collections
  import opened Wrappers
  import opened SymbolicCrypto
  import opened Ratchet
  import Padding

  datatype Party = Initiator | Responder

  datatype Message = Message(header: Header, ct: Sealed, plaintext: seq<byte>)

  datatype Session = Session(
    shared: SharedSecret,
    keys: seq<Secret>,
    initiator: State,
    responder: State,
    sent: seq<seq<Option<Message>>>,
    delivered: set<(nat, nat)>)
  {
    function Of(party: Party): State {
      if party.Initiator? then initiator else responder
    }

    function With(party: Party, s: State): Session {
      if party.Initiator? then this.(initiator := s) else this.(responder := s)
    }

    /** The number of the ratchet key a party holds. */
    function Index(party: Party): nat
      requires |keys| >= 2
    {
      Held(|keys|, party)
    }

    predicate Exists(chain: nat, n: nat) {
      chain < |sent| && n < |sent[chain]| && sent[chain][n].Some?
    }
  }

  function Peer(party: Party): Party {
    if party.Initiator? then Responder else Initiator
  }

  /** Whose ratchet key number `i` is. */
  function Owner(i: nat): Party {
    if i == 0 then Responder else Peer(Owner(i - 1))
  }

  /** Of `count` keys, one party holds the newest and the other the one before. */
  function Held(count: nat, party: Party): nat
    requires count >= 2
  {
    if Owner(count - 1) == party then count - 1 else count - 2
  }

  lemma HeldByBoth(count: nat, party: Party)
    requires count >= 2
    ensures var p, q := Held(count, party), Held(count, Peer(party));
            && Owner(p) == party && Owner(q) == Peer(party)
            && (p == q + 1 == count - 1 || q == p + 1 == count - 1)
  {
    assert Owner(count - 1) == Peer(Owner(count - 2));
  }

  datatype Event =
    | Send(from: Party, plaintext: seq<byte>)
    | Deliver(to: Party, chain: nat, n: nat, drawn: Secret)

  function Start(shared: SharedSecret, spk: Secret, drawn: Secret): Session {
    Session(shared, [spk, drawn], InitInitiator(shared, PublicOf(spk), drawn), InitResponder(shared, spk), [[], []], {})
  }

  function Received(net: Session, to: Party, chain: nat, n: nat, drawn: Secret): (State, Result<seq<byte>>)
    requires net.Exists(chain, n)
  {
    DecryptStep(net.Of(to), net.sent[chain][n].value.header, net.sent[chain][n].value.ct, drawn)
  }

  function Step(net: Session, e: Event): (net': Session)
    requires |net.keys| == |net.sent| >= 2
    ensures |net'.keys| == |net'.sent| >= 2
  {
    match e
    case Send(from, plaintext) =>
      var (s, r) := EncryptStep(net.Of(from), plaintext);
      if net.Of(from).sendChain.None? then net
      else
        var slot := if r.Success? then Some(Message(r.value.0, r.value.1, plaintext)) else None;
        var i := net.Index(from);
        net.With(from, s).(sent := net.sent[i := net.sent[i] + [slot]])
    case Deliver(to, chain, n, drawn) =>
      if !net.Exists(chain, n) then net
      else
        var (s, r) := Received(net, to, chain, n, drawn);
        var net' := net.With(to, s).(delivered := if r.Success? then net.delivered + {(chain, n)} else net.delivered);
        if s.dhSelf == net.Of(to).dhSelf then net'
        else net'.(keys := net.keys + [drawn], sent := net.sent + [[]])
  }

  // ----- what a caller can check before an event -----

  /** A chain the receiver has already left: its ratchet key is older than the one it now follows. */
  predicate LeftBehind(net: Session, to: Party, chain: nat)
    requires |net.keys| >= 2
  {
    chain + 1 < net.Index(to)
  }

  /** How many keys must be stored to reach the message a header names. */
  function SkipsNeeded(s: State, header: Header): nat {
    if s.dhRemote == Some(header.dhPub) then
      if (header.dhPub, header.n) in s.skipped || header.n < s.recvN then 0 else header.n - s.recvN
    else
      (if s.recvChain.Some? && header.pn > s.recvN then header.pn - s.recvN else 0) + header.n
  }

  predicate Fits(s: State, header: Header) {
    |s.skipped| + SkipsNeeded(s, header) <= MAX_SKIP
  }

  predicate Legal(net: Session, e: Event)
    requires |net.keys| == |net.sent| >= 2
  {
    match e
    case Send(from, _) => |net.sent[net.Index(from)]| + 1 < U32_LIMIT
    case Deliver(to, chain, n, drawn) =>
      && net.Exists(chain, n)
      && Owner(chain) == Peer(to)
      && !LeftBehind(net, to, chain)
      && drawn !in net.keys
      && Fits(net.Of(to), net.sent[chain][n].value.header)
  }

  // ----- the keys both parties should hold -----

  ghost function DhAt(keys: seq<Secret>, i: nat): DhOutput
    requires 1 <= i < |keys|
  {
    Dh(keys[i], PublicOf(keys[i - 1]))
  }

  ghost function RootAt(shared: SharedSecret, keys: seq<Secret>, i: nat): RootKey
    requires i < |keys|
  {
    if i == 0 then Seed(shared) else NextRoot(RootAt(shared, keys, i - 1), DhAt(keys, i))
  }

  ghost function ChainAt(shared: SharedSecret, keys: seq<Secret>, i: nat): ChainKey
    requires 1 <= i < |keys|
  {
    ChainStart(RootAt(shared, keys, i - 1), DhAt(keys, i))
  }

  ghost function KeyAt(shared: SharedSecret, keys: seq<Secret>, i: nat, n: nat): MessageKey
    requires 1 <= i < |keys|
  {
    MessageKey(Advance(ChainAt(shared, keys, i), n))
  }

  lemma {:induction false} RootPrefix(shared: SharedSecret, keys: seq<Secret>, drawn: Secret, i: nat)
    requires i < |keys|
    ensures RootAt(shared, keys + [drawn], i) == RootAt(shared, keys, i)
  {
    if i == 0 {
    } else {
      RootPrefix(shared, keys, drawn, i - 1);
    }
  }

  ghost function Previous(sent: seq<seq<Option<Message>>>, i: nat): nat
    requires i < |sent|
  {
    if i >= 2 then |sent[i - 2]| else 0
  }

  ghost predicate MessageOk(net: Session, i: nat, n: nat)
    requires |net.keys| == |net.sent|
    requires 1 <= i && net.Exists(i, n)
  {
    SealedOk(net, i, n, net.sent[i][n].value)
  }

  /** What message `n` of chain `i` looks like on the wire. */
  ghost predicate SealedOk(net: Session, i: nat, n: nat, m: Message)
    requires 1 <= i < |net.keys| == |net.sent|
  {
    && Padding.PadToBucket(m.plaintext).Success?
    && Previous(net.sent, i) < U32_LIMIT && n < U32_LIMIT
    && m.header == Header(PublicOf(net.keys[i]), Previous(net.sent, i), n)
    && m.ct == Ciphertext.Sealed(KeyAt(net.shared, net.keys, i, n), m.header, Padding.PadToBucket(m.plaintext).value)
  }

  /** A number of a chain the holder of key `p` follows or followed, passed but not opened. */
  ghost predicate Awaited(net: Session, s: State, p: nat, i: nat, n: nat)
    requires p < |net.sent|
  {
    Passed(net, s, p, i, n) && (i, n) !in net.delivered
  }

  ghost predicate Passed(net: Session, s: State, p: nat, i: nat, n: nat)
    requires p < |net.sent|
  {
    1 <= i < p && Owner(i) != Owner(p) && n < if i == p - 1 then s.recvN else |net.sent[i]|
  }

  ghost predicate ChainsOk(net: Session, s: State, p: nat)
    requires p < |net.keys| == |net.sent|
  {
    && s.dhSelf == net.keys[p]
    && s.root == RootAt(net.shared, net.keys, p)
    && s.dhRemote == (if p == 0 then None else Some(PublicOf(net.keys[p - 1])))
    && s.sendChain == (if p == 0 then None else Some(Advance(ChainAt(net.shared, net.keys, p), s.sendN)))
    && s.sendN == |net.sent[p]|
    && s.prevSendN == Previous(net.sent, p)
    && s.recvChain == (if p <= 1 then None else Some(Advance(ChainAt(net.shared, net.keys, p - 1), s.recvN)))
    && s.recvN <= (if p <= 1 then 0 else |net.sent[p - 1]|)
  }

  ghost predicate Known(keys: seq<Secret>, remote: Public) {
    exists i | 0 <= i < |keys| :: remote == PublicOf(keys[i])
  }

  /** The store holds the key of exactly the awaited numbers. */
  ghost predicate SkippedOk(net: Session, s: State, p: nat)
    requires p < |net.keys| == |net.sent|
  {
    && |s.skipped| <= MAX_SKIP
    && (forall key | key in s.skipped :: Known(net.keys, key.0))
    && (forall i: nat, n: u32 {:trigger (PublicOf(net.keys[i]), n) in s.skipped} | i < |net.keys| ::
          EntryOk(net, s, p, i, n))
    && (forall i: nat, n: nat | (i, n) in net.delivered && Owner(i) != Owner(p) :: Passed(net, s, p, i, n))
  }

  ghost predicate EntryOk(net: Session, s: State, p: nat, i: nat, n: u32)
    requires p < |net.keys| == |net.sent| && i < |net.keys|
  {
    var key := (PublicOf(net.keys[i]), n);
    if Awaited(net, s, p, i, n) then key in s.skipped && s.skipped[key] == KeyAt(net.shared, net.keys, i, n)
    else key !in s.skipped
  }

  ghost predicate PartyOk(net: Session, s: State, p: nat)
    requires p < |net.keys| == |net.sent|
  {
    ChainsOk(net, s, p) && SkippedOk(net, s, p)
  }

  ghost predicate Shape(net: Session) {
    && |net.keys| == |net.sent| >= 2
    && Distinct(net.keys)
    && net.sent[0] == []
    && (forall i | 0 <= i < |net.sent| :: |net.sent[i]| < U32_LIMIT)
  }

  ghost predicate LogOk(net: Session) {
    && Shape(net)
    && (forall i: nat, n: nat {:trigger net.Exists(i, n)} :: 1 <= i && net.Exists(i, n) ==> MessageOk(net, i, n))
  }

  /** Both parties derive the same chains, one at most one ratchet key behind the other, and each stores
      exactly the keys of the numbers it passed over and has not opened. */
  ghost predicate Synced(net: Session) {
    && LogOk(net)
    && (forall party: Party :: PartyOk(net, net.Of(party), net.Index(party)))
  }

  // ----- every legal event keeps the parties in step -----

  lemma StartSynced(shared: SharedSecret, spk: Secret, drawn: Secret)
    requires spk != drawn
    ensures Synced(Start(shared, spk, drawn))
  {
    var net := Start(shared, spk, drawn);
    assert RootAt(shared, net.keys, 1) == NextRoot(RootAt(shared, net.keys, 0), DhAt(net.keys, 1));
    assert Owner(1) == Initiator;
    forall party: Party
      ensures PartyOk(net, net.Of(party), net.Index(party))
    {
      assert forall i: nat, n: u32 | i < 2 :: EntryOk(net, net.Of(party), net.Index(party), i, n);
    }
  }

  /** What can change in the log without touching what the holder of key `p` stores: chains it has not
      left grow, the peer opens messages, the peer takes a new ratchet key. */
  ghost predicate Extends(net: Session, net': Session, p: nat)
    requires p < |net.keys| == |net.sent| && |net'.keys| == |net'.sent|
  {
    && net'.shared == net.shared && net.keys <= net'.keys && |net'.keys| <= |net.keys| + 1
    && (forall i: nat | i + 1 < p :: net'.sent[i] == net.sent[i])
    && (forall i: nat, n: nat | Owner(i) != Owner(p) :: (i, n) in net'.delivered <==> (i, n) in net.delivered)
  }

  lemma SkippedFrame(net: Session, net': Session, s: State, s': State, p: nat)
    requires p < |net.keys| == |net.sent| && |net'.keys| == |net'.sent| && Distinct(net'.keys)
    requires Extends(net, net', p) && SkippedOk(net, s, p)
    requires s'.recvN == s.recvN && s'.skipped == s.skipped
    ensures SkippedOk(net', s', p)
  {
    RootsFrame(net, net');
    forall key | key in s.skipped
      ensures Known(net'.keys, key.0)
    {
      var i :| 0 <= i < |net.keys| && key.0 == PublicOf(net.keys[i]);
      assert net'.keys[i] == net.keys[i];
    }
    forall i: nat, n: u32 | i < |net'.keys|
      ensures EntryOk(net', s', p, i, n)
    {
      if i < |net.keys| { assert EntryOk(net, s, p, i, n); }
    }
    forall i: nat, n: nat | (i, n) in net'.delivered && Owner(i) != Owner(p)
      ensures Passed(net', s', p, i, n)
    {
      assert Passed(net, s, p, i, n);
    }
  }

  lemma PartyFrame(net: Session, net': Session, s: State, p: nat)
    requires p < |net.keys| == |net.sent| && |net'.keys| == |net'.sent|
    requires Extends(net, net', p) && PartyOk(net, s, p) && Distinct(net'.keys)
    requires net'.sent[p] == net.sent[p] && Previous(net'.sent, p) == Previous(net.sent, p)
    requires p >= 1 ==> |net.sent[p - 1]| <= |net'.sent[p - 1]|
    ensures PartyOk(net', s, p)
  {
    RootsFrame(net, net');
    SkippedFrame(net, net', s, s, p);
  }

  lemma RootsFrame(net: Session, net': Session)
    requires |net.keys| >= 1 && net'.shared == net.shared
    requires net.keys <= net'.keys && |net'.keys| <= |net.keys| + 1
    ensures forall i: nat | i < |net.keys| :: RootAt(net'.shared, net'.keys, i) == RootAt(net.shared, net.keys, i)
    ensures forall i: nat | 1 <= i < |net.keys| ::
            ChainAt(net'.shared, net'.keys, i) == ChainAt(net.shared, net.keys, i)
  {
    if |net'.keys| > |net.keys| {
      var k := net'.keys[|net.keys|];
      assert net'.keys == net.keys + [k];
      forall i: nat | i < |net.keys|
        ensures RootAt(net'.shared, net'.keys, i) == RootAt(net.shared, net.keys, i)
      {
        RootPrefix(net.shared, net.keys, k, i);
      }
    } else {
      assert net'.keys == net.keys;
    }
  }

  /** The log after the holder of key `p` spends a number: sealed in `slot`, or wasted. */
  ghost predicate Logged(net: Session, net': Session, p: nat, slot: Option<Message>)
    requires 1 <= p < |net.keys| == |net.sent|
  {
    && net'.shared == net.shared && net'.keys == net.keys && net'.delivered == net.delivered
    && net'.sent == net.sent[p := net.sent[p] + [slot]]
    && (slot.Some? ==> SealedOk(net, p, |net.sent[p]|, slot.value))
  }

  lemma SendLog(net: Session, net': Session, p: nat, slot: Option<Message>)
    requires LogOk(net) && |net.keys| - 2 <= p < |net.keys| && p >= 1
    requires Logged(net, net', p, slot) && |net.sent[p]| + 1 < U32_LIMIT
    ensures LogOk(net')
  {
    forall i: nat, n: nat | 1 <= i && net'.Exists(i, n)
      ensures MessageOk(net', i, n)
    {
      assert Previous(net'.sent, i) == Previous(net.sent, i);
      if i != p || n < |net.sent[p]| {
        assert net.Exists(i, n);
        assert MessageOk(net, i, n);
      }
    }
  }

  lemma SendParty(net: Session, net': Session, s: State, s': State, p: nat, slot: Option<Message>)
    requires Shape(net) && 1 <= p < |net.keys|
    requires Logged(net, net', p, slot) && |net.sent[p]| + 1 < U32_LIMIT
    requires PartyOk(net, s, p)
    requires s' == s.(sendChain := Some(NextChain(s.sendChain.value)), sendN := s.sendN + 1)
    ensures PartyOk(net', s', p)
  {
    SkippedFrame(net, net', s, s', p);
    assert s'.sendChain.value == Advance(ChainAt(net.shared, net.keys, p), s'.sendN);
  }

  /** The effect of sending from a key that has a chain. */
  lemma SendEffect(net: Session, from: Party, plaintext: seq<byte>) returns (slot: Option<Message>)
    requires LogOk(net) && net.Index(from) >= 1 && ChainsOk(net, net.Of(from), net.Index(from))
    requires Legal(net, Send(from, plaintext))
    ensures var net' := Step(net, Send(from, plaintext));
            var s := net.Of(from);
            && Logged(net, net', net.Index(from), slot)
            && net'.Of(Peer(from)) == net.Of(Peer(from))
            && net'.Of(from) == s.(sendChain := Some(NextChain(s.sendChain.value)), sendN := s.sendN + 1)
  {
    var r := EncryptStep(net.Of(from), plaintext).1;
    slot := if r.Success? then Some(Message(r.value.0, r.value.1, plaintext)) else None;
  }

  lemma SendSynced(net: Session, from: Party, plaintext: seq<byte>)
    requires Synced(net) && Legal(net, Send(from, plaintext))
    ensures Synced(Step(net, Send(from, plaintext)))
  {
    var net' := Step(net, Send(from, plaintext));
    var p := net.Index(from);
    assert PartyOk(net, net.Of(from), p);
    if p == 0 {
      assert net' == net;
    } else {
      var slot := SendEffect(net, from, plaintext);
      SendKeeps(net, net', from, slot);
    }
  }

  lemma SendKeeps(net: Session, net': Session, from: Party, slot: Option<Message>)
    requires Synced(net) && net.Index(from) >= 1
    requires Logged(net, net', net.Index(from), slot) && |net.sent[net.Index(from)]| + 1 < U32_LIMIT
    requires net'.Of(Peer(from)) == net.Of(Peer(from)) && net.Of(from).sendChain.Some?
    requires var s := net.Of(from);
             net'.Of(from) == s.(sendChain := Some(NextChain(s.sendChain.value)), sendN := s.sendN + 1)
    ensures Synced(net')
  {
    var p, q := net.Index(from), net.Index(Peer(from));
    var s, t := net.Of(from), net.Of(Peer(from));
    HeldByBoth(|net.keys|, from);
    assert LogOk(net') by { SendLog(net, net', p, slot); }
    assert PartyOk(net', net'.Of(from), p) by {
      assert PartyOk(net, s, p);
      SendParty(net, net', s, net'.Of(from), p, slot);
    }
    assert PartyOk(net', t, q) by {
      assert PartyOk(net, t, q);
      if q == p + 1 { assert net'.sent[q - 1] == net.sent[p] + [slot]; }
      PartyFrame(net, net', t, q);
    }
    forall other: Party
      ensures PartyOk(net', net'.Of(other), net'.Index(other))
    {
      assert other == from || other == Peer(from);
    }
  }

  function Opened(net: Session, chain: nat, n: nat): Session {
    net.(delivered := net.delivered + {(chain, n)})
  }

  /** Opening a number that was passed over uses up its stored key. */
  lemma PassedKey(net: Session, s: State, p: nat, n: u32)
    requires Shape(net) && 2 <= p < |net.keys| && PartyOk(net, s, p)
    requires n < s.recvN && (p - 1, n) !in net.delivered
    ensures var (s', key) := KeyStep(s, n);
            key == Success(KeyAt(net.shared, net.keys, p - 1, n)) && PartyOk(Opened(net, p - 1, n), s', p)
  {
    var s' := KeyStep(s, n).0;
    assert EntryOk(net, s, p, p - 1, n);
    var gone := (PublicOf(net.keys[p - 1]), n);
    assert s' == s.(skipped := s.skipped - {gone});
    SubsetSize(s'.skipped.Keys, s.skipped.Keys);
    PassedEntries(net, s, s', p, n);
  }

  lemma OpenedPassed(net: Session, s: State, s': State, p: nat, n: nat)
    requires 2 <= p < |net.sent| && s.recvN <= s'.recvN && n < s'.recvN
    requires forall i: nat, m: nat | (i, m) in net.delivered && Owner(i) != Owner(p) :: Passed(net, s, p, i, m)
    ensures forall i: nat, m: nat | (i, m) in Opened(net, p - 1, n).delivered && Owner(i) != Owner(p) ::
              Passed(Opened(net, p - 1, n), s', p, i, m)
  {
    var net' := Opened(net, p - 1, n);
    assert Owner(p) == Peer(Owner(p - 1));
    forall i: nat, m: nat | (i, m) in net'.delivered && Owner(i) != Owner(p)
      ensures Passed(net', s', p, i, m)
    {
      if (i, m) in net.delivered { assert Passed(net, s, p, i, m); }
    }
  }

  lemma PassedEntry(net: Session, s: State, s': State, p: nat, n: u32, i: nat, m: u32)
    requires 2 <= p < |net.keys| == |net.sent| && i < |net.keys| && EntryOk(net, s, p, i, m)
    requires Distinct(net.keys) && s'.recvN == s.recvN
    requires s'.skipped == s.skipped - {(PublicOf(net.keys[p - 1]), n)}
    ensures EntryOk(Opened(net, p - 1, n), s', p, i, m)
  {
    var key := (PublicOf(net.keys[i]), m);
    assert key == (PublicOf(net.keys[p - 1]), n) <==> i == p - 1 && m == n;
    assert Passed(Opened(net, p - 1, n), s', p, i, m) == Passed(net, s, p, i, m);
  }

  lemma PassedEntries(net: Session, s: State, s': State, p: nat, n: u32)
    requires Shape(net) && 2 <= p < |net.keys| && SkippedOk(net, s, p)
    requires n < s.recvN && s'.recvN == s.recvN
    requires s'.skipped == s.skipped - {(PublicOf(net.keys[p - 1]), n)} && |s'.skipped| <= MAX_SKIP
    ensures SkippedOk(Opened(net, p - 1, n), s', p)
  {
    var net' := Opened(net, p - 1, n);
    assert net'.keys == net.keys && net'.sent == net.sent && net'.shared == net.shared;
    forall i: nat, m: u32 | i < |net.keys|
      ensures EntryOk(net', s', p, i, m)
    {
      PassedEntry(net, s, s', p, n, i, m);
    }
    OpenedPassed(net, s, s', p, n);
  }

  /** The key and the new state when the message is not reached yet: the numbers before it are stored. */
  lemma AheadStep(net: Session, s: State, p: nat, n: u32)
    requires Shape(net) && 2 <= p < |net.keys| && PartyOk(net, s, p)
    requires s.recvN <= n < |net.sent[p - 1]|
    ensures var (s', key) := KeyStep(s, n);
            var chain := ChainAt(net.shared, net.keys, p - 1);
            var skip := SkipTo(s.skipped, s.recvChain.value, PublicOf(net.keys[p - 1]), s.recvN, n);
            && (key.Success? <==> |s.skipped| + (n - s.recvN) <= MAX_SKIP)
            && (key.Failure? ==> key.error == TooManySkipped)
            && (key.Success? ==>
                  && key.value == KeyAt(net.shared, net.keys, p - 1, n)
                  && |skip.skipped| <= MAX_SKIP && skip.n == n
                  && s' == s.(recvChain := Some(Advance(chain, n + 1)), recvN := n + 1, skipped := skip.skipped))
  {
    var remote, chain := PublicOf(net.keys[p - 1]), ChainAt(net.shared, net.keys, p - 1);
    assert forall key | key in s.skipped :: !(key.0 == remote && s.recvN <= key.1 <= n) by {
      forall key | key in s.skipped && key.0 == remote
        ensures key.1 < s.recvN
      {
        assert EntryOk(net, s, p, p - 1, key.1);
      }
    }
    KeyStepAhead(s, n);
    AdvanceAdd(chain, s.recvN, n - s.recvN);
  }

  lemma AheadEntry(net: Session, s: State, s': State, p: nat, n: u32, i: nat, m: u32)
    requires 2 <= p < |net.keys| == |net.sent| && i < |net.keys| && EntryOk(net, s, p, i, m)
    requires Distinct(net.keys) && s'.recvN == n + 1 > s.recvN
    requires s.recvChain == Some(Advance(ChainAt(net.shared, net.keys, p - 1), s.recvN))
    requires (p - 1, m) in net.delivered ==> Passed(net, s, p, p - 1, m)
    requires var skip := SkipTo(s.skipped, s.recvChain.value, PublicOf(net.keys[p - 1]), s.recvN, n);
             skip.n == n && s'.skipped == skip.skipped
    ensures EntryOk(Opened(net, p - 1, n), s', p, i, m)
  {
    var key := (PublicOf(net.keys[i]), m);
    SkipToEntry(s.skipped, s.recvChain.value, PublicOf(net.keys[p - 1]), s.recvN, n, key);
    assert key.0 == PublicOf(net.keys[p - 1]) <==> i == p - 1;
    if i == p - 1 {
      if s.recvN <= m { AdvanceAdd(ChainAt(net.shared, net.keys, i), s.recvN, m - s.recvN); }
    } else {
      assert Passed(Opened(net, p - 1, n), s', p, i, m) == Passed(net, s, p, i, m);
    }
  }

  lemma AheadEntries(net: Session, s: State, s': State, p: nat, n: u32)
    requires Shape(net) && 2 <= p < |net.keys| && SkippedOk(net, s, p)
    requires s.recvChain == Some(Advance(ChainAt(net.shared, net.keys, p - 1), s.recvN))
    requires s.recvN <= n < |net.sent[p - 1]| && s'.recvN == n + 1
    requires var skip := SkipTo(s.skipped, s.recvChain.value, PublicOf(net.keys[p - 1]), s.recvN, n);
             skip.n == n && s'.skipped == skip.skipped && |skip.skipped| <= MAX_SKIP
    ensures SkippedOk(Opened(net, p - 1, n), s', p)
  {
    var net' := Opened(net, p - 1, n);
    forall i: nat, m: u32 | i < |net.keys|
      ensures EntryOk(net', s', p, i, m)
    {
      assert EntryOk(net, s, p, i, m);
      AheadEntry(net, s, s', p, n, i, m);
    }
    forall key | key in s'.skipped
      ensures Known(net.keys, key.0)
    {
      SkipToEntry(s.skipped, s.recvChain.value, PublicOf(net.keys[p - 1]), s.recvN, n, key);
    }
    OpenedPassed(net, s, s', p, n);
  }

  lemma AheadChains(net: Session, s: State, s': State, p: nat, n: u32)
    requires 2 <= p < |net.keys| == |net.sent| && ChainsOk(net, s, p) && n < |net.sent[p - 1]| && n + 1 < U32_LIMIT
    requires s' == s.(recvChain := Some(Advance(ChainAt(net.shared, net.keys, p - 1), n + 1)),
                          recvN := n + 1, skipped := s'.skipped)
    ensures ChainsOk(Opened(net, p - 1, n), s', p)
  {
  }

  lemma AheadKey(net: Session, s: State, p: nat, n: u32)
    requires Shape(net) && 2 <= p < |net.keys| && PartyOk(net, s, p)
    requires s.recvN <= n < |net.sent[p - 1]|
    ensures var (s', key) := KeyStep(s, n);
            && (key.Success? <==> |s.skipped| + (n - s.recvN) <= MAX_SKIP)
            && (key.Failure? ==> key.error == TooManySkipped)
            && (key.Success? ==> key.value == KeyAt(net.shared, net.keys, p - 1, n)
                                 && PartyOk(Opened(net, p - 1, n), s', p))
  {
    AheadStep(net, s, p, n);
    var (s', key) := KeyStep(s, n);
    if key.Success? {
      AheadEntries(net, s, s', p, n);
      AheadChains(net, s, s', p, n);
    }
  }

  /** The key of the current chain's message `n`, opened for the first time. */
  lemma CurrentKey(net: Session, s: State, p: nat, n: u32)
    requires Shape(net) && 2 <= p < |net.keys| && PartyOk(net, s, p)
    requires n < |net.sent[p - 1]| && (p - 1, n) !in net.delivered
    ensures var (s', key) := KeyStep(s, n);
            var needed := if n < s.recvN then 0 else n - s.recvN;
            && (key.Success? <==> |s.skipped| + needed <= MAX_SKIP)
            && (key.Failure? ==> key.error == TooManySkipped)
            && (key.Success? ==> key.value == KeyAt(net.shared, net.keys, p - 1, n)
                                 && PartyOk(Opened(net, p - 1, n), s', p))
  {
    if n < s.recvN {
      PassedKey(net, s, p, n);
    } else {
      AheadKey(net, s, p, n);
    }
  }

  /** The key of a message of the chain the receiver follows. */
  lemma CurrentReceive(net: Session, s: State, p: nat, header: Header, drawn: Secret)
    requires Shape(net) && 2 <= p < |net.keys| && PartyOk(net, s, p)
    requires header.dhPub == PublicOf(net.keys[p - 1]) && header.n < |net.sent[p - 1]|
    requires (p - 1, header.n) !in net.delivered
    ensures var (s', key) := ReceiveStep(s, header, drawn);
            && (key.Success? <==> Fits(s, header))
            && (key.Failure? ==> key.error == TooManySkipped)
            && (key.Success? ==>
                  && key.value == KeyAt(net.shared, net.keys, p - 1, header.n)
                  && s'.dhSelf == net.keys[p]
                  && PartyOk(Opened(net, p - 1, header.n), s', p))
  {
    CurrentKey(net, s, p, header.n);
    assert EntryOk(net, s, p, p - 1, header.n);
  }

  /** A message already opened on the current chain is refused and changes nothing. */
  lemma RepeatedKey(net: Session, s: State, p: nat, n: u32)
    requires Shape(net) && 2 <= p < |net.keys| && PartyOk(net, s, p)
    requires (p - 1, n) in net.delivered
    ensures KeyStep(s, n) == (s, Failure(KeyAlreadyConsumed))
  {
    assert Owner(p) == Peer(Owner(p - 1));
    assert Passed(net, s, p, p - 1, n);
    assert EntryOk(net, s, p, p - 1, n);
  }

  /** The log once a party has taken a new ratchet key. */
  function Ratcheted(net: Session, drawn: Secret): Session {
    net.(keys := net.keys + [drawn], sent := net.sent + [[]])
  }

  /** What the ratchet step starts from: the old chain skipped to its end, as the header claims it. */
  predicate SkippedOldChain(net: Session, s: State, s0: State, p: nat)
    requires p + 1 < |net.keys| == |net.sent|
  {
    if p >= 2 then
      var pn := |net.sent[p - 1]|;
      && s.recvChain.Some? && s.recvN <= pn < U32_LIMIT
      && var skip := SkipTo(s.skipped, s.recvChain.value, PublicOf(net.keys[p - 1]), s.recvN, pn);
         skip.ok && skip.n == pn && s0 == s.(recvChain := None, recvN := pn, skipped := skip.skipped)
    else s0 == s.(recvChain := None)
  }

  lemma RatchetEntry(net: Session, s: State, s0: State, s1: State, p: nat, drawn: Secret, i: nat, m: u32)
    requires Shape(net) && |net.keys| == p + 2 && drawn !in net.keys
    requires i < p + 2 && EntryOk(net, s, p, i, m) && ChainsOk(net, s, p)
    requires p >= 2 && (p - 1, m) in net.delivered ==> Passed(net, s, p, p - 1, m)
    requires SkippedOldChain(net, s, s0, p) && s1.skipped == s0.skipped && s1.recvN == 0
    ensures EntryOk(Ratcheted(net, drawn), s1, p + 2, i, m)
  {
    var net1 := Ratcheted(net, drawn);
    assert net1.keys[i] == net.keys[i] && net1.sent[i] == net.sent[i];
    RootsFrame(net, net1);
    assert Owner(p + 2) == Owner(p);
    if p >= 2 {
      var remote, chain := PublicOf(net.keys[p - 1]), ChainAt(net.shared, net.keys, p - 1);
      SkipToEntry(s.skipped, s.recvChain.value, remote, s.recvN, |net.sent[p - 1]|, (PublicOf(net.keys[i]), m));
      assert PublicOf(net.keys[i]) == remote <==> i == p - 1;
      if i == p - 1 && s.recvN <= m { AdvanceAdd(chain, s.recvN, m - s.recvN); }
    }
  }

  lemma RatchetEntries(net: Session, s: State, s0: State, s1: State, p: nat, drawn: Secret)
    requires Shape(net) && |net.keys| == p + 2 && drawn !in net.keys
    requires PartyOk(net, s, p)
    requires SkippedOldChain(net, s, s0, p) && s1.skipped == s0.skipped && s1.recvN == 0 && |s1.skipped| <= MAX_SKIP
    ensures SkippedOk(Ratcheted(net, drawn), s1, p + 2)
  {
    var net1 := Ratcheted(net, drawn);
    forall key | key in s1.skipped
      ensures Known(net1.keys, key.0)
    {
      if p >= 2 {
        SkipToEntry(s.skipped, s.recvChain.value, PublicOf(net.keys[p - 1]), s.recvN, |net.sent[p - 1]|, key);
      }
      KnownLater(net.keys, drawn, key.0);
    }
    forall i: nat, m: u32 {:trigger EntryOk(net1, s1, p + 2, i, m)} | i < |net1.keys|
      ensures EntryOk(net1, s1, p + 2, i, m)
    {
      if i < p + 2 {
        assert EntryOk(net, s, p, i, m);
        RatchetEntry(net, s, s0, s1, p, drawn, i, m);
      } else {
        RatchetNewEntry(net, s, s0, s1, p, drawn, m);
      }
    }
    forall i: nat, m: nat | (i, m) in net1.delivered && Owner(i) != Owner(p + 2)
      ensures Passed(net1, s1, p + 2, i, m)
    {
      assert Owner(p + 2) == Peer(Owner(p + 1)) == Owner(p);
      assert Passed(net, s, p, i, m);
    }
  }

  lemma KnownLater(keys: seq<Secret>, drawn: Secret, remote: Public)
    requires Known(keys, remote)
    ensures Known(keys + [drawn], remote)
  {
    var i :| 0 <= i < |keys| && remote == PublicOf(keys[i]);
    assert (keys + [drawn])[i] == keys[i];
  }

  /** Nothing is stored under a ratchet key nobody has used. */
  lemma RatchetNewEntry(net: Session, s: State, s0: State, s1: State, p: nat, drawn: Secret, m: u32)
    requires Shape(net) && |net.keys| == p + 2 && drawn !in net.keys && SkippedOk(net, s, p)
    requires SkippedOldChain(net, s, s0, p) && s1.skipped == s0.skipped
    ensures (PublicOf(drawn), m) !in s1.skipped
  {
    if p >= 2 {
      SkipToEntry(s.skipped, s.recvChain.value, PublicOf(net.keys[p - 1]), s.recvN, |net.sent[p - 1]|,
                  (PublicOf(drawn), m));
    }
  }

  /** After the ratchet step the receiver holds the newest key and follows the chain it just learnt of. */
  lemma RatchetParty(net: Session, s: State, s0: State, p: nat, drawn: Secret)
    requires Shape(net) && |net.keys| == p + 2 && drawn !in net.keys && PartyOk(net, s, p)
    requires SkippedOldChain(net, s, s0, p) && |s0.skipped| <= MAX_SKIP
    ensures PartyOk(Ratcheted(net, drawn), DhRatchet(s0, PublicOf(net.keys[p + 1]), drawn), p + 2)
  {
    var net1, s1 := Ratcheted(net, drawn), DhRatchet(s0, PublicOf(net.keys[p + 1]), drawn);
    RatchetEntries(net, s, s0, s1, p, drawn);
    RatchetChains(net, s, s0, p, drawn);
  }

  lemma RatchetChains(net: Session, s: State, s0: State, p: nat, drawn: Secret)
    requires |net.keys| == p + 2 == |net.sent| && ChainsOk(net, s, p)
    requires s0.dhSelf == s.dhSelf && s0.root == s.root && s0.sendN == s.sendN
    ensures ChainsOk(Ratcheted(net, drawn), DhRatchet(s0, PublicOf(net.keys[p + 1]), drawn), p + 2)
  {
    var net1 := Ratcheted(net, drawn);
    RootsFrame(net, net1);
    assert RootAt(net1.shared, net1.keys, p + 1) == NextRoot(RootAt(net.shared, net.keys, p), DhAt(net.keys, p + 1));
    assert RootAt(net1.shared, net1.keys, p + 2)
        == NextRoot(RootAt(net1.shared, net1.keys, p + 1), Dh(drawn, PublicOf(net.keys[p + 1])));
  }

  /** The old chain can be skipped to its end exactly when its missing numbers fit. */
  lemma OldChainFits(net: Session, s: State, p: nat) returns (s0: State)
    requires Shape(net) && 2 <= p && |net.keys| == p + 2 && PartyOk(net, s, p)
    ensures var pn := |net.sent[p - 1]|;
            var skip := SkipTo(s.skipped, s.recvChain.value, PublicOf(net.keys[p - 1]), s.recvN, pn);
            && s.recvN <= pn
            && s0 == s.(recvChain := None, recvN := skip.n, skipped := skip.skipped)
            && (skip.ok <==> pn == s.recvN || |s.skipped| + (pn - s.recvN) <= MAX_SKIP)
            && (skip.ok ==> SkippedOldChain(net, s, s0, p) && |s0.skipped| == |s.skipped| + (pn - s.recvN))
  {
    var pn, remote := |net.sent[p - 1]|, PublicOf(net.keys[p - 1]);
    forall key | key in s.skipped
      ensures !(key.0 == remote && s.recvN <= key.1 < pn)
    {
      if key.0 == remote { assert EntryOk(net, s, p, p - 1, key.1); }
    }
    SkipToFits(s.skipped, s.recvChain.value, remote, s.recvN, pn);
    SkipToReaches(s.skipped, s.recvChain.value, remote, s.recvN, pn);
    var skip := SkipTo(s.skipped, s.recvChain.value, remote, s.recvN, pn);
    s0 := s.(recvChain := None, recvN := skip.n, skipped := skip.skipped);
  }

  /** The key of a message of the chain the peer has moved on to. */
  lemma NextKey(net: Session, s: State, p: nat, header: Header, drawn: Secret)
    requires Shape(net) && |net.keys| == p + 2 && PartyOk(net, s, p) && drawn !in net.keys
    requires header.n < |net.sent[p + 1]|
    requires header.dhPub == PublicOf(net.keys[p + 1]) && header.pn == Previous(net.sent, p + 1)
    ensures var (s', key) := ReceiveStep(s, header, drawn);
            && (key.Success? <==> Fits(s, header))
            && (key.Failure? ==> key.error == TooManySkipped)
            && (key.Success? ==>
                  && key.value == KeyAt(net.shared, net.keys, p + 1, header.n)
                  && s'.dhSelf == drawn
                  && PartyOk(Opened(Ratcheted(net, drawn), p + 1, header.n), s', p + 2))
  {
    var s0 := s.(recvChain := None);
    if p >= 2 { s0 := OldChainFits(net, s, p); }
    if |s.skipped| + (if p >= 2 then header.pn - s.recvN else 0) <= MAX_SKIP {
      RatchetParty(net, s, s0, p, drawn);
      var net1, s1 := Ratcheted(net, drawn), DhRatchet(s0, header.dhPub, drawn);
      assert ReceiveStep(s, header, drawn) == KeyStep(s1, header.n);
      NextKeyAfter(net, s1, p, header.n, drawn);
    }
  }

  lemma NextKeyAfter(net: Session, s1: State, p: nat, n: u32, drawn: Secret)
    requires Shape(net) && |net.keys| == p + 2 && drawn !in net.keys && n < |net.sent[p + 1]|
    requires PartyOk(Ratcheted(net, drawn), s1, p + 2) && s1.recvN == 0
    ensures var (s', key) := KeyStep(s1, n);
            && (key.Success? <==> |s1.skipped| + n <= MAX_SKIP)
            && (key.Failure? ==> key.error == TooManySkipped)
            && (key.Success? ==>
                  && key.value == KeyAt(net.shared, net.keys, p + 1, n)
                  && s'.dhSelf == drawn
                  && PartyOk(Opened(Ratcheted(net, drawn), p + 1, n), s', p + 2))
  {
    var net1 := Ratcheted(net, drawn);
    RootsFrame(net, net1);
    assert Shape(net1);
    assert (p + 1, n) !in net1.delivered by {
      assert Owner(p + 2) == Peer(Owner(p + 1)) && !Passed(net1, s1, p + 2, p + 1, n);
    }
    CurrentKey(net1, s1, p + 2, n);
  }

  // ----- what the session promises -----

  /** A message the peer sealed and whose chain the receiver has not left. */
  predicate Deliverable(net: Session, to: Party, chain: nat, n: nat)
    requires |net.keys| >= 2
  {
    net.Exists(chain, n) && Owner(chain) == Peer(to) && !LeftBehind(net, to, chain)
  }

  /** A deliverable message is on the chain the receiver follows or on the one the peer has moved on to. */
  lemma DeliverableChain(net: Session, to: Party, chain: nat, n: nat)
    requires Synced(net) && Deliverable(net, to, chain, n)
    ensures var p := net.Index(to);
            && 1 <= chain < |net.keys|
            && (chain + 1 == p >= 2 || (chain == p + 1 && |net.keys| == p + 2))
  {
    HeldByBoth(|net.keys|, to);
    assert LogOk(net);
    assert Owner(chain + 1) == Peer(Owner(chain));
  }

  /** The log after a first delivery: opened, and with the receiver's new key if it had to ratchet. */
  function Advanced(net: Session, to: Party, chain: nat, n: nat, drawn: Secret): Session
    requires |net.keys| >= 2
  {
    if chain + 1 == net.Index(to) then Opened(net, chain, n) else Opened(Ratcheted(net, drawn), chain, n)
  }

  lemma FirstOnCurrent(net: Session, to: Party, chain: nat, n: nat, drawn: Secret)
    requires Synced(net) && Deliverable(net, to, chain, n) && (chain, n) !in net.delivered
    requires chain + 1 == net.Index(to)
    ensures var m, p := net.sent[chain][n].value, net.Index(to);
            var (s', key) := ReceiveStep(net.Of(to), m.header, drawn);
            && 1 <= chain && p < |net.keys|
            && (key.Success? <==> Fits(net.Of(to), m.header))
            && (key.Failure? ==> key.error == TooManySkipped)
            && (key.Success? ==>
                  && key.value == KeyAt(net.shared, net.keys, chain, n)
                  && s'.dhSelf == net.keys[p]
                  && PartyOk(Opened(net, chain, n), s', p))
  {
    var p := net.Index(to);
    DeliverableChain(net, to, chain, n);
    assert PartyOk(net, net.Of(to), p) && MessageOk(net, p - 1, n);
    CurrentReceive(net, net.Of(to), p, net.sent[p - 1][n].value.header, drawn);
  }

  /** The header of a message of the chain the peer has moved on to. */
  lemma NextHeader(net: Session, to: Party, chain: nat, n: nat)
    requires Synced(net) && Deliverable(net, to, chain, n) && chain + 1 != net.Index(to)
    ensures var p := net.Index(to);
            && chain == p + 1 && |net.keys| == p + 2 && Shape(net) && PartyOk(net, net.Of(to), p)
            && Previous(net.sent, p + 1) < U32_LIMIT && n < U32_LIMIT
            && net.sent[p + 1][n].value.header == Header(PublicOf(net.keys[p + 1]), Previous(net.sent, p + 1), n)
  {
    DeliverableChain(net, to, chain, n);
    assert PartyOk(net, net.Of(to), net.Index(to)) && MessageOk(net, chain, n);
  }

  /** What the receiver finds for it. */
  ghost predicate FoundOnNext(net: Session, s: State, p: nat, header: Header, drawn: Secret)
    requires |net.keys| == |net.sent| == p + 2
  {
    var (s', key) := ReceiveStep(s, header, drawn);
    && (key.Success? <==> Fits(s, header))
    && (key.Failure? ==> key.error == TooManySkipped)
    && (key.Success? ==>
          && key.value == KeyAt(net.shared, net.keys, p + 1, header.n)
          && s'.dhSelf == drawn
          && PartyOk(Opened(Ratcheted(net, drawn), p + 1, header.n), s', p + 2))
  }

  lemma NextKeyFound(net: Session, s: State, p: nat, n: u32, drawn: Secret)
    requires Shape(net) && |net.keys| == p + 2 && PartyOk(net, s, p) && drawn !in net.keys && n < |net.sent[p + 1]|
    ensures FoundOnNext(net, s, p, Header(PublicOf(net.keys[p + 1]), Previous(net.sent, p + 1), n), drawn)
  {
    NextKey(net, s, p, Header(PublicOf(net.keys[p + 1]), Previous(net.sent, p + 1), n), drawn);
  }

  lemma FirstOnNext(net: Session, to: Party, chain: nat, n: nat, drawn: Secret)
    requires Synced(net) && Deliverable(net, to, chain, n) && drawn !in net.keys
    requires chain + 1 != net.Index(to)
    ensures var m, p := net.sent[chain][n].value, net.Index(to);
            && chain == p + 1 && |net.keys| == p + 2 && m.header.n == n
            && FoundOnNext(net, net.Of(to), p, m.header, drawn)
  {
    NextHeader(net, to, chain, n);
    NextKeyFound(net, net.Of(to), net.Index(to), n, drawn);
  }

  lemma OpensWith(net: Session, to: Party, chain: nat, n: nat, drawn: Secret)
    requires |net.keys| == |net.sent| && 1 <= chain && net.Exists(chain, n) && MessageOk(net, chain, n)
    requires ReceiveStep(net.Of(to), net.sent[chain][n].value.header, drawn).1
          == Success(KeyAt(net.shared, net.keys, chain, n))
    ensures Received(net, to, chain, n, drawn)
         == (ReceiveStep(net.Of(to), net.sent[chain][n].value.header, drawn).0,
             Success(net.sent[chain][n].value.plaintext))
  {
    Padding.PadUnpad(net.sent[chain][n].value.plaintext);
  }

  lemma AdvancedLog(net: Session, to: Party, chain: nat, n: nat, drawn: Secret)
    requires LogOk(net) && drawn !in net.keys
    ensures LogOk(Advanced(net, to, chain, n, drawn))
  {
    var net' := Advanced(net, to, chain, n, drawn);
    RootsFrame(net, net');
    DistinctAppend(net.keys, drawn);
    forall i: nat, m: nat | 1 <= i && net'.Exists(i, m)
      ensures MessageOk(net', i, m)
    {
      assert net.Exists(i, m) && MessageOk(net, i, m);
    }
  }

  lemma AdvancedPeer(net: Session, to: Party, chain: nat, n: nat, drawn: Secret)
    requires Synced(net) && Deliverable(net, to, chain, n) && drawn !in net.keys
    ensures PartyOk(Advanced(net, to, chain, n, drawn), net.Of(Peer(to)), net.Index(Peer(to)))
  {
    var net', t, q := Advanced(net, to, chain, n, drawn), net.Of(Peer(to)), net.Index(Peer(to));
    HeldByBoth(|net.keys|, to);
    DistinctAppend(net.keys, drawn);
    assert PartyOk(net, t, q) && Shape(net);
    DeliveredExtends(net, net', q, chain, n);
    PartyFrame(net, net', t, q);
  }

  /** A delivery of something this party sealed, and perhaps a new key of the peer, does not touch what it stores. */
  lemma DeliveredExtends(net: Session, net': Session, q: nat, chain: nat, n: nat)
    requires q < |net.keys| == |net.sent| && Owner(chain) == Owner(q)
    requires net'.shared == net.shared && net'.delivered == net.delivered + {(chain, n)}
    requires (net'.keys == net.keys && net'.sent == net.sent)
          || (|net'.keys| == |net.keys| + 1 && net.keys <= net'.keys && net'.sent == net.sent + [[]])
    ensures Extends(net, net', q)
    ensures net'.sent[q] == net.sent[q] && Previous(net'.sent, q) == Previous(net.sent, q)
    ensures q >= 1 ==> net'.sent[q - 1] == net.sent[q - 1]
  {
  }

  lemma HeldLater(count: nat, party: Party)
    requires count >= 2
    ensures Held(count, party) == count - 2 ==>
              Held(count + 1, party) == count && Held(count + 1, Peer(party)) == Held(count, Peer(party))
  {
    assert Owner(count) == Peer(Owner(count - 1));
  }

  /** A receiver that had to ratchet now holds the newest key. */
  lemma AdvancedIndex(net: Session, to: Party, chain: nat, n: nat, drawn: Secret)
    requires Synced(net) && Deliverable(net, to, chain, n)
    ensures var net', p := Advanced(net, to, chain, n, drawn), net.Index(to);
            && |net'.keys| >= 2
            && net'.Index(to) == (if chain + 1 == p then p else p + 2)
            && net'.Index(Peer(to)) == net.Index(Peer(to))
            && net'.Of(Peer(to)) == net.Of(Peer(to))
  {
    DeliverableChain(net, to, chain, n);
    HeldLater(|net.keys|, to);
  }

  lemma AdvancedSynced(net: Session, to: Party, chain: nat, n: nat, drawn: Secret, s': State)
    requires Synced(net) && Deliverable(net, to, chain, n) && drawn !in net.keys
    requires var p := net.Index(to);
             var net' := Advanced(net, to, chain, n, drawn);
             var p' := if chain + 1 == p then p else p + 2;
             1 <= chain < |net.keys| && p' < |net'.keys| && PartyOk(net', s', p')
    ensures Synced(Advanced(net, to, chain, n, drawn).With(to, s'))
  {
    var net' := Advanced(net, to, chain, n, drawn);
    AdvancedIndex(net, to, chain, n, drawn);
    assert LogOk(net') by { AdvancedLog(net, to, chain, n, drawn); }
    assert PartyOk(net', net.Of(Peer(to)), net.Index(Peer(to))) by { AdvancedPeer(net, to, chain, n, drawn); }
    WithSynced(net', to, s');
  }

  /** Putting a party's state in place changes nothing the log or the other party depends on. */
  lemma WithSynced(net: Session, party: Party, s: State)
    requires LogOk(net) && PartyOk(net, s, net.Index(party))
    requires PartyOk(net, net.Of(Peer(party)), net.Index(Peer(party)))
    ensures Synced(net.With(party, s))
  {
    var net' := net.With(party, s);
    assert LogOk(net') by {
      forall i: nat, n: nat | 1 <= i && net'.Exists(i, n)
        ensures MessageOk(net', i, n)
      {
        assert net.Exists(i, n) && MessageOk(net, i, n);
      }
    }
    forall other: Party
      ensures PartyOk(net', net'.Of(other), net'.Index(other))
    {
      WithParty(net, net', net'.Of(other), net'.Index(other));
    }
  }

  lemma WithParty(net: Session, net': Session, s: State, p: nat)
    requires Shape(net) && p < |net.keys| && PartyOk(net, s, p)
    requires net'.shared == net.shared && net'.keys == net.keys && net'.sent == net.sent
    requires net'.delivered == net.delivered
    ensures PartyOk(net', s, p)
  {
    PartyFrame(net, net', s, p);
  }

  /** What the receiver makes of a first delivery, on either chain. */
  ghost predicate FirstReceived(net: Session, to: Party, chain: nat, n: nat, drawn: Secret)
    requires |net.keys| == |net.sent| >= 2 && 1 <= chain < |net.keys| && net.Exists(chain, n)
  {
    var header, p, net' := net.sent[chain][n].value.header, net.Index(to), Advanced(net, to, chain, n, drawn);
    var (s', key) := ReceiveStep(net.Of(to), header, drawn);
    var p' := if chain + 1 == p then p else p + 2;
    && p' < |net'.keys| == |net'.sent|
    && (key.Success? <==> Fits(net.Of(to), header))
    && (key.Failure? ==> key.error == TooManySkipped)
    && (key.Success? ==>
          && key.value == KeyAt(net.shared, net.keys, chain, n)
          && s'.dhSelf == (if chain + 1 == p then net.keys[p] else drawn)
          && PartyOk(net', s', p'))
  }

  lemma NextIsReceived(net: Session, to: Party, chain: nat, n: nat, drawn: Secret)
    requires |net.keys| == |net.sent| >= 2 && |net.keys| == net.Index(to) + 2
    requires chain == net.Index(to) + 1 && net.Exists(chain, n)
    requires net.sent[chain][n].value.header.n == n
    requires FoundOnNext(net, net.Of(to), net.Index(to), net.sent[chain][n].value.header, drawn)
    ensures FirstReceived(net, to, chain, n, drawn)
  {
  }

  lemma FirstIsReceived(net: Session, to: Party, chain: nat, n: nat, drawn: Secret)
    requires Synced(net) && Deliverable(net, to, chain, n) && (chain, n) !in net.delivered && drawn !in net.keys
    ensures 1 <= chain < |net.keys| && FirstReceived(net, to, chain, n, drawn)
  {
    DeliverableChain(net, to, chain, n);
    if chain + 1 == net.Index(to) {
      FirstOnCurrent(net, to, chain, n, drawn);
    } else {
      FirstOnNext(net, to, chain, n, drawn);
      NextIsReceived(net, to, chain, n, drawn);
    }
  }

  /** The first delivery of a message opens to exactly what was sent, if and only if the keys it makes the
      receiver store fit, and leaves both parties in step. */
  lemma FirstDelivery(net: Session, to: Party, chain: nat, n: nat, drawn: Secret)
    requires Synced(net) && Deliverable(net, to, chain, n) && (chain, n) !in net.delivered && drawn !in net.keys
    ensures var m := net.sent[chain][n].value;
            var r := Received(net, to, chain, n, drawn).1;
            && (r.Success? <==> Fits(net.Of(to), m.header))
            && (r.Success? ==> r.value == m.plaintext && Synced(Step(net, Deliver(to, chain, n, drawn))))
            && (r.Failure? ==> r.error == TooManySkipped)
  {
    var (s', key) := ReceiveStep(net.Of(to), net.sent[chain][n].value.header, drawn);
    FirstIsReceived(net, to, chain, n, drawn);
    if key.Success? {
      assert LogOk(net) && MessageOk(net, chain, n);
      OpensWith(net, to, chain, n, drawn);
      AdvancedSynced(net, to, chain, n, drawn, s');
      StepIsAdvanced(net, to, chain, n, drawn, s');
    }
  }

  lemma StepIsAdvanced(net: Session, to: Party, chain: nat, n: nat, drawn: Secret, s': State)
    requires Synced(net) && Deliverable(net, to, chain, n) && drawn !in net.keys
    requires Received(net, to, chain, n, drawn) == (s', Success(net.sent[chain][n].value.plaintext))
    requires s'.dhSelf == if chain + 1 == net.Index(to) then net.keys[net.Index(to)] else drawn
    ensures Step(net, Deliver(to, chain, n, drawn)) == Advanced(net, to, chain, n, drawn).With(to, s')
  {
    assert PartyOk(net, net.Of(to), net.Index(to));
  }

  /** A repeat on a chain the receiver has not left is refused and changes nothing. */
  lemma RepeatedDelivery(net: Session, to: Party, chain: nat, n: nat, drawn: Secret)
    requires Synced(net) && Deliverable(net, to, chain, n) && (chain, n) in net.delivered
    ensures Received(net, to, chain, n, drawn) == (net.Of(to), Failure(KeyAlreadyConsumed))
    ensures Step(net, Deliver(to, chain, n, drawn)) == net
  {
    var p, s := net.Index(to), net.Of(to);
    DeliverableChain(net, to, chain, n);
    assert MessageOk(net, chain, n);
    assert chain + 1 == p && KeyStep(s, n) == (s, Failure(KeyAlreadyConsumed))
        && s.dhRemote == Some(PublicOf(net.keys[chain])) by {
      assert PartyOk(net, s, p);
      HeldByBoth(|net.keys|, to);
      assert Passed(net, s, p, chain, n);
      RepeatedKey(net, s, p, n);
    }
  }

  lemma LegalKeepsSynced(net: Session, e: Event)
    requires Synced(net) && Legal(net, e)
    ensures Synced(Step(net, e))
  {
    match e
    case Send(from, plaintext) => SendSynced(net, from, plaintext);
    case Deliver(to, chain, n, drawn) =>
      if (chain, n) in net.delivered {
        RepeatedDelivery(net, to, chain, n, drawn);
      } else {
        FirstDelivery(net, to, chain, n, drawn);
      }
  }

  function Run(net: Session, events: seq<Event>): (net': Session)
    requires |net.keys| == |net.sent| >= 2
    ensures |net'.keys| == |net'.sent| >= 2
    decreases |events|
  {
    if events == [] then net
    else Step(Run(net, events[..|events| - 1]), events[|events| - 1])
  }

  predicate LegalRun(net: Session, events: seq<Event>)
    requires |net.keys| == |net.sent| >= 2
    decreases |events|
  {
    var k := |events| - 1;
    k < 0 || (LegalRun(net, events[..k]) && Legal(Run(net, events[..k]), events[k]))
  }

  lemma {:induction false} RunSynced(net: Session, events: seq<Event>)
    requires Synced(net) && LegalRun(net, events)
    ensures Synced(Run(net, events))
    decreases |events|
  {
    if events == [] {
    } else {
      var k := |events| - 1;
      RunSynced(net, events[..k]);
      LegalKeepsSynced(Run(net, events[..k]), events[k]);
    }
  }

  /** After any legal run of two freshly paired parties, whatever was lost, repeated or reordered, a
      deliverable message that fits opens to exactly the plaintext sent if it was not opened before, and is
      refused without a trace if it was; and no receiver is more than one ratchet key behind its peer. */
  lemma SessionDelivers(shared: SharedSecret, spk: Secret, first: Secret, events: seq<Event>,
                        to: Party, chain: nat, n: nat, drawn: Secret)
    requires spk != first && LegalRun(Start(shared, spk, first), events)
    requires var net := Run(Start(shared, spk, first), events); Legal(net, Deliver(to, chain, n, drawn))
    ensures var net := Run(Start(shared, spk, first), events);
            && (if (chain, n) in net.delivered
                then Received(net, to, chain, n, drawn) == (net.Of(to), Failure(KeyAlreadyConsumed))
                else Received(net, to, chain, n, drawn).1 == Success(net.sent[chain][n].value.plaintext))
            && AtMostOneBehind(net, to)
  {
    StartSynced(shared, spk, first);
    RunSynced(Start(shared, spk, first), events);
    var net := Run(Start(shared, spk, first), events);
    if (chain, n) in net.delivered {
      RepeatedDelivery(net, to, chain, n, drawn);
    } else {
      FirstDelivery(net, to, chain, n, drawn);
    }
    SyncedRemote(net, to);
  }

  /** The remote key a party follows is its peer's present ratchet key or the one before it, if any. */
  ghost predicate AtMostOneBehind(net: Session, party: Party)
    requires |net.keys| >= 2
  {
    var q, remote := net.Index(Peer(party)), net.Of(party).dhRemote;
    && net.Of(Peer(party)).dhSelf == net.keys[q]
    && (remote == Some(PublicOf(net.keys[q])) || remote == if q >= 2 then Some(PublicOf(net.keys[q - 2])) else None)
  }

  lemma SyncedRemote(net: Session, party: Party)
    requires Synced(net)
    ensures AtMostOneBehind(net, party)
  {
    HeldByBoth(|net.keys|, party);
    assert PartyOk(net, net.Of(party), net.Index(party));
    assert PartyOk(net, net.Of(Peer(party)), net.Index(Peer(party)));
  }

  // ----- a message is bound to its header -----

  ghost predicate Bound(net: Session) {
    forall i: nat, n: nat {:trigger net.Exists(i, n)} | net.Exists(i, n) ::
      net.sent[i][n].value.ct.Sealed? && net.sent[i][n].value.ct.ad == net.sent[i][n].value.header
  }

  lemma StartBound(shared: SharedSecret, spk: Secret, first: Secret)
    ensures Bound(Start(shared, spk, first))
  {
  }

  lemma StepBound(net: Session, e: Event)
    requires |net.keys| == |net.sent| >= 2 && Bound(net)
    ensures Bound(Step(net, e))
  {
    var net' := Step(net, e);
    if e.Send? { SealsAsSaid(net.Of(e.from), e.plaintext); }
    forall i: nat, n: nat | net'.Exists(i, n)
      ensures net'.sent[i][n].value.ct.Sealed? && net'.sent[i][n].value.ct.ad == net'.sent[i][n].value.header
    {
      assert net.Exists(i, n) || (e.Send? && i == net.Index(e.from) && n == |net.sent[i]|);
    }
  }

  lemma {:induction false} RunBound(net: Session, events: seq<Event>)
    requires |net.keys| == |net.sent| >= 2 && Bound(net)
    ensures Bound(Run(net, events))
    decreases |events|
  {
    if events == [] {
    } else {
      RunBound(net, events[..|events| - 1]);
      StepBound(Run(net, events[..|events| - 1]), events[|events| - 1]);
    }
  }

  /** Whatever has happened in a session, legal or not: a ciphertext either party sealed does not open under any
      header but its own, for anybody, in any state. */
  lemma OtherHeaderRefused(shared: SharedSecret, spk: Secret, first: Secret, events: seq<Event>, chain: nat, n: nat,
                           s: State, header: Header, drawn: Secret)
    requires var net := Run(Start(shared, spk, first), events);
             net.Exists(chain, n) && header != net.sent[chain][n].value.header
    ensures var net := Run(Start(shared, spk, first), events);
            DecryptStep(s, header, net.sent[chain][n].value.ct, drawn).1.Failure?
  {
    StartBound(shared, spk, first);
    RunBound(Start(shared, spk, first), events);
    var ct := Run(Start(shared, spk, first), events).sent[chain][n].value.ct;
    var r := DecryptStep(s, header, ct, drawn).1;
    if r.Success? { OpensAsSealed(s, header, ct, drawn, r.value); }
  }

  // ----- a chain left behind -----

  /** A key that is neither the one a party follows nor its peer's present one. */
  predicate Foreign(net: Session, to: Party, remote: Public) {
    net.Of(to).dhRemote != Some(remote) && PublicOf(net.Of(Peer(to)).dhSelf) != remote
  }

  /** The keys of the chain a header makes a party abandon fit its store. */
  predicate RoomToAbandon(s: State, header: Header) {
    s.recvChain.None? || header.pn <= s.recvN || |s.skipped| + (header.pn - s.recvN) <= MAX_SKIP
  }

  /** The root from which a receiver goes on when it ratchets against a foreign key. */
  ghost function StrayRoot(net: Session, p: nat, remote: Public): RootKey
    requires p < |net.keys|
  {
    NextRoot(RootAt(net.shared, net.keys, p), Dh(net.keys[p], remote))
  }

  /** It follows that key, and its root and its send chain come from there. */
  ghost predicate Strayed(net: Session, p: nat, remote: Public, s: State)
    requires p < |net.keys|
  {
    var dh := Dh(s.dhSelf, remote);
    && s.dhRemote == Some(remote)
    && s.root == NextRoot(StrayRoot(net, p, remote), dh)
    && s.sendChain == Some(ChainStart(StrayRoot(net, p, remote), dh))
  }

  /** The state a ratchet step starts from: the old receiving chain given up, after its skipped keys were stored. */
  function Abandoned(s: State, header: Header): State {
    if s.recvChain.Some? && s.dhRemote.Some? then
      var skip := SkipTo(s.skipped, s.recvChain.value, s.dhRemote.value, s.recvN, header.pn);
      s.(recvChain := None, recvN := skip.n, skipped := skip.skipped)
    else s.(recvChain := None)
  }

  /** The old chain is given up in full exactly when there is room. */
  lemma AbandonFits(net: Session, s: State, p: nat, header: Header, drawn: Secret)
    requires p < |net.keys| == |net.sent| && PartyOk(net, s, p) && s.dhRemote != Some(header.dhPub)
    ensures ReceiveStep(s, header, drawn)
         == if RoomToAbandon(s, header) then KeyStep(DhRatchet(Abandoned(s, header), header.dhPub, drawn), header.n)
            else (Abandoned(s, header), Failure(TooManySkipped))
  {
    if s.recvChain.Some? {
      var remote := PublicOf(net.keys[p - 1]);
      forall key | key in s.skipped
        ensures !(key.0 == remote && s.recvN <= key.1 < header.pn)
      {
        if key.0 == remote { assert EntryOk(net, s, p, p - 1, key.1); }
      }
      SkipToFits(s.skipped, s.recvChain.value, remote, s.recvN, header.pn);
    }
  }

  /** What a receipt does, of whatever origin, whose header names a foreign key: if the chain it makes the receiver
      abandon fits, the receiver strays; otherwise it is left without a receiving chain. */
  lemma ForeignReceipt(net: Session, to: Party, header: Header, ct: Sealed, drawn: Secret)
    requires Synced(net) && Foreign(net, to, header.dhPub)
    ensures var p, s, (s', r) := net.Index(to), net.Of(to), DecryptStep(net.Of(to), header, ct, drawn);
            if RoomToAbandon(s, header) then s'.dhSelf == drawn && Strayed(net, p, header.dhPub, s')
            else s.recvChain.Some? && s' == Abandoned(s, header) && s'.recvChain == None && r == Failure(TooManySkipped)
  {
    var p, s := net.Index(to), net.Of(to);
    assert PartyOk(net, s, p);
    AbandonFits(net, s, p, header, drawn);
    KeyStepKeeps(DhRatchet(Abandoned(s, header), header.dhPub, drawn), header.n);
  }

  /** Either way the parties are out of step. */
  lemma ForeignOutOfStep(net: Session, to: Party, header: Header, ct: Sealed, drawn: Secret, net': Session)
    requires Synced(net) && Foreign(net, to, header.dhPub) && drawn !in net.keys && |net'.keys| == |net'.sent|
    requires var s' := DecryptStep(net.Of(to), header, ct, drawn).0;
             net'.Of(to) == s' && net'.keys == (if s'.dhSelf == net.Of(to).dhSelf then net.keys else net.keys + [drawn])
    ensures !Synced(net')
  {
    HeldByBoth(|net.keys|, to);
    HeldByBoth(|net'.keys|, to);
    ForeignReceipt(net, to, header, ct, drawn);
    assert PartyOk(net, net.Of(to), net.Index(to)) && PartyOk(net, net.Of(Peer(to)), net.Index(Peer(to)));
    assert !ChainsOk(net', net'.Of(to), net'.Index(to));
    assert !PartyOk(net', net'.Of(to), net'.Index(to));
  }

  /** The key of an old chain is foreign to a receiver that has left it. */
  lemma LeftBehindForeign(net: Session, to: Party, chain: nat)
    requires Synced(net) && chain < |net.keys| && LeftBehind(net, to, chain)
    ensures Foreign(net, to, PublicOf(net.keys[chain]))
  {
    var p, q := net.Index(to), net.Index(Peer(to));
    HeldByBoth(|net.keys|, to);
    assert PartyOk(net, net.Of(to), p) && PartyOk(net, net.Of(Peer(to)), q) && Shape(net);
    assert net.keys[chain] != net.keys[p - 1] && net.keys[chain] != net.keys[q];
  }

  /** A chain with messages on it is not the first, and its messages are as they were sealed. */
  lemma OldMessage(net: Session, to: Party, chain: nat, n: nat)
    requires Synced(net) && net.Exists(chain, n)
    ensures 1 <= chain < |net.keys| && MessageOk(net, chain, n)
    ensures net.sent[chain][n].value.header.dhPub == PublicOf(net.keys[chain])
  {
    assert LogOk(net);
  }

  /** The source takes the ratchet step before it looks among the skipped keys, so a late message of a chain the
      receiver has left makes it ratchet against an old key. A first delivery still opens then, as its key is stored,
      while a repeat is refused, though not as a repeat: the receiver tries a key of a chain nobody seals on. */
  lemma LeftBehindDelivery(net: Session, to: Party, chain: nat, n: nat, drawn: Secret)
    requires Synced(net) && net.Exists(chain, n) && Owner(chain) == Peer(to) && LeftBehind(net, to, chain)
    ensures var m, r := net.sent[chain][n].value, Received(net, to, chain, n, drawn).1;
            if !RoomToAbandon(net.Of(to), m.header) then r == Failure(TooManySkipped)
            else if (chain, n) !in net.delivered then r == Success(m.plaintext)
            else r == Failure(OpenFailed) || r == Failure(TooManySkipped)
  {
    var p, s, m := net.Index(to), net.Of(to), net.sent[chain][n].value;
    HeldByBoth(|net.keys|, to);
    OldMessage(net, to, chain, n);
    LeftBehindForeign(net, to, chain);
    ForeignReceipt(net, to, m.header, m.ct, drawn);
    assert PartyOk(net, s, p);
    AbandonFits(net, s, p, m.header, drawn);
    if RoomToAbandon(s, m.header) {
      if (chain, n) in net.delivered {
        RepeatKey(net, s, p, chain, m.header, drawn);
      } else {
        StoredKey(net, s, p, chain, m.header, drawn);
        OpensWith(net, to, chain, n, drawn);
      }
    }
  }

  lemma StoredEntry(net: Session, s: State, p: nat, chain: nat, header: Header)
    requires Shape(net) && p < |net.keys| && PartyOk(net, s, p) && chain + 1 < p
    requires header.dhPub == PublicOf(net.keys[chain])
    ensures var key, abandoned := (header.dhPub, header.n), Abandoned(s, header).skipped;
            (key in abandoned <==> key in s.skipped) && (key in s.skipped ==> abandoned[key] == s.skipped[key])
    ensures EntryOk(net, s, p, chain, header.n)
  {
    assert net.keys[chain] != net.keys[p - 1];
    if s.recvChain.Some? {
      SkipToEntry(s.skipped, s.recvChain.value, PublicOf(net.keys[p - 1]), s.recvN, header.pn,
                  (header.dhPub, header.n));
    }
  }

  lemma StoredKey(net: Session, s: State, p: nat, chain: nat, header: Header, drawn: Secret)
    requires Shape(net) && p < |net.keys| && PartyOk(net, s, p) && 1 <= chain && chain + 1 < p
    requires Owner(chain) != Owner(p)
    requires header.dhPub == PublicOf(net.keys[chain]) && header.n < |net.sent[chain]|
    requires (chain, header.n) !in net.delivered
    ensures KeyStep(DhRatchet(Abandoned(s, header), header.dhPub, drawn), header.n).1
         == Success(KeyAt(net.shared, net.keys, chain, header.n))
  {
    StoredEntry(net, s, p, chain, header);
    assert Passed(net, s, p, chain, header.n);
  }

  lemma RepeatKey(net: Session, s: State, p: nat, chain: nat, header: Header, drawn: Secret)
    requires Shape(net) && p < |net.keys| && PartyOk(net, s, p) && 1 <= chain && chain + 1 < p
    requires header.dhPub == PublicOf(net.keys[chain]) && (chain, header.n) in net.delivered
    ensures var key := KeyStep(DhRatchet(Abandoned(s, header), header.dhPub, drawn), header.n).1;
            || key == Failure(TooManySkipped)
            || (key.Success? && key.value != KeyAt(net.shared, net.keys, chain, header.n))
  {
    StoredEntry(net, s, p, chain, header);
    var s1 := DhRatchet(Abandoned(s, header), header.dhPub, drawn);
    var start := s1.recvChain.value;
    if SkipTo(s1.skipped, start, header.dhPub, 0, header.n).ok {
      SkipToReaches(s1.skipped, start, header.dhPub, 0, header.n);
      SkipToChain(s1.skipped, start, header.dhPub, 0, header.n);
      AdvanceShape(start, header.n);
      AdvanceShape(ChainAt(net.shared, net.keys, chain), header.n);
      RootAtDepth(net.shared, net.keys, p);
      RootAtDepth(net.shared, net.keys, chain - 1);
    }
  }

  lemma {:induction false} RootAtDepth(shared: SharedSecret, keys: seq<Secret>, i: nat)
    requires i < |keys|
    ensures RootDepth(RootAt(shared, keys, i)) == i
  {
    if i == 0 {
    } else {
      RootAtDepth(shared, keys, i - 1);
    }
  }

  /** What a delivery should come to: a first one opens to what was sent, a repeat is refused as one. */
  function Promised(net: Session, chain: nat, n: nat): Result<seq<byte>>
    requires net.Exists(chain, n)
  {
    if (chain, n) in net.delivered then Failure(KeyAlreadyConsumed) else Success(net.sent[chain][n].value.plaintext)
  }

  /** When the delivery of a message, first or repeated, does what it should and keeps the parties in step: exactly
      when the receiver has not left its chain, and the skipped keys of a first one fit. */
  lemma DeliveryKeepsStepIff(net: Session, to: Party, chain: nat, n: nat, drawn: Secret)
    requires Synced(net) && net.Exists(chain, n) && Owner(chain) == Peer(to) && drawn !in net.keys
    ensures (Received(net, to, chain, n, drawn).1 == Promised(net, chain, n)
             && Synced(Step(net, Deliver(to, chain, n, drawn))))
       <==> !LeftBehind(net, to, chain)
            && ((chain, n) in net.delivered || Fits(net.Of(to), net.sent[chain][n].value.header))
  {
    if LeftBehind(net, to, chain) {
      LeftBehindOutOfStep(net, to, chain, n, drawn);
    } else if (chain, n) in net.delivered {
      RepeatedDelivery(net, to, chain, n, drawn);
    } else {
      FirstDelivery(net, to, chain, n, drawn);
    }
  }

  lemma LeftBehindOutOfStep(net: Session, to: Party, chain: nat, n: nat, drawn: Secret)
    requires Synced(net) && net.Exists(chain, n) && LeftBehind(net, to, chain) && drawn !in net.keys
    ensures !Synced(Step(net, Deliver(to, chain, n, drawn)))
  {
    var m := net.sent[chain][n].value;
    OldMessage(net, to, chain, n);
    LeftBehindForeign(net, to, chain);
    ForeignOutOfStep(net, to, m.header, m.ct, drawn, Step(net, Deliver(to, chain, n, drawn)));
  }
}
