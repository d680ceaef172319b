/** Which message keys a ratchet ever uses. Sealing and opening use a fixed zero nonce, so a key must never
    be used twice. Nothing is assumed of the network here: headers, ciphertexts and even the scalars the
    random generator returns are arbitrary. */
module KeyUse {
  import opened Bytes
  import opened Collections
  import opened Wrappers
  import opened SymbolicCrypto
  import opened Ratchet

  datatype Event =
    | Seal(plaintext: seq<byte>)
    | Open(header: Header, ct: Sealed, drawn: Secret)

  /** A party with the keys it has sealed under and the keys handed out to it for opening, in order. */
  datatype Trace = Trace(s: State, sealed: seq<MessageKey>, handed: seq<MessageKey>)

  function Logged(keys: seq<MessageKey>, key: Result<MessageKey>): seq<MessageKey> {
    if key.Success? then keys + [key.value] else keys
  }

  function Step(t: Trace, e: Event): Trace {
    match e
    case Seal(plaintext) =>
      var (s, r) := EncryptStep(t.s, plaintext);
      t.(s := s, sealed := Logged(t.sealed, if r.Success? then Success(r.value.1.key) else Failure(r.error)))
    case Open(header, ct, drawn) =>
      var key := ReceiveStep(t.s, header, drawn).1;
      t.(s := DecryptStep(t.s, header, ct, drawn).0, handed := Logged(t.handed, key))
  }

  function Run(s: State, events: seq<Event>): Trace {
    if events == [] then Trace(s, [], [])
    else Step(Run(s, events[..|events| - 1]), events[|events| - 1])
  }

  lemma StepSkippedBounded(t: Trace, e: Event)
    requires |t.s.skipped| <= MAX_SKIP
    ensures |Step(t, e).s.skipped| <= MAX_SKIP
  {
    if e.Open? { StoresBounded(t.s, e.header, e.drawn); }
  }

  /** Over any run at all, whatever headers, ciphertexts and scalars it is fed, a party never holds more than
      a thousand skipped keys; and no receipt, whatever it claims, puts more than that many in the store, overwrites
      included. */
  lemma {:induction false} RunStoresBounded(s: State, events: seq<Event>, header: Header, drawn: Secret)
    requires |s.skipped| <= 1000
    ensures |Run(s, events).s.skipped| <= 1000
    ensures ReceiveStores(Run(s, events).s, header, drawn) <= 1000
    decreases |events|
  {
    if events == [] {
    } else {
      RunStoresBounded(s, events[..|events| - 1], header, drawn);
      StepSkippedBounded(Run(s, events[..|events| - 1]), events[|events| - 1]);
    }
    StoresBounded(Run(s, events).s, header, drawn);
  }

  /** The depth of the root a chain was split from. */
  ghost function Depth(chain: ChainKey): nat {
    match chain
    case ChainStart(root, _) => RootDepth(root)
    case NextChain(prev) => Depth(prev)
  }

  /** On the given side of the session, and strictly before step `st` of a chain split at root depth `d`. */
  ghost predicate Below(k: MessageKey, side: bool, d: nat, st: nat) {
    && Even(Depth(k.chain)) == side
    && (Depth(k.chain) < d || (Depth(k.chain) == d && Steps(k.chain) < st))
  }

  ghost predicate Even(n: nat) {
    n == 0 || !Even(n - 1)
  }

  lemma EvenSkips(n: nat, m: nat)
    requires m == n + 2
    ensures Even(m) == Even(n)
  {
    assert Even(n + 1) == !Even(n);
  }

  /** Every stored key is one of a kind and was never handed out, and all keys lie before (d, st). */
  ghost predicate Once(skipped: SkippedKeys, handed: seq<MessageKey>, side: bool, d: nat, st: nat) {
    && (forall p | p in skipped :: Below(skipped[p], side, d, st) && skipped[p] !in handed)
    && (forall p, q | p in skipped && q in skipped && skipped[p] == skipped[q] :: p == q)
    && (forall k | k in handed :: Below(k, side, d, st))
    && Distinct(handed)
  }

  lemma OnceLater(skipped: SkippedKeys, handed: seq<MessageKey>, side: bool, d: nat, st: nat, d': nat, st': nat)
    requires Once(skipped, handed, side, d, st) && (d < d' || (d == d' && st <= st'))
    ensures Once(skipped, handed, side, d', st')
  {
  }

  /** The key of the present step can be handed out. */
  lemma OnceHanded(skipped: SkippedKeys, handed: seq<MessageKey>, side: bool, k: MessageKey)
    requires Once(skipped, handed, side, Depth(k.chain), Steps(k.chain)) && Even(Depth(k.chain)) == side
    ensures Once(skipped, handed + [k], side, Depth(k.chain), Steps(k.chain) + 1)
  {
    assert k !in handed;
  }

  /** So can a stored one, once it is removed. */
  lemma OnceTaken(skipped: SkippedKeys, handed: seq<MessageKey>, side: bool, d: nat, st: nat, p: (Public, u32))
    requires Once(skipped, handed, side, d, st) && p in skipped
    ensures Once(skipped - {p}, handed + [skipped[p]], side, d, st)
  {
    assert skipped[p] !in handed;
  }

  /** Storing the key of the present step keeps the bookkeeping, whatever entry it overwrites. */
  lemma {:induction false} SkipToOnce(skipped: SkippedKeys, handed: seq<MessageKey>, side: bool, chain: ChainKey,
                                      remote: Public, n: u32, upto: u32)
    requires Once(skipped, handed, side, Depth(chain), Steps(chain)) && Even(Depth(chain)) == side
    ensures var r := SkipTo(skipped, chain, remote, n, upto);
            Once(r.skipped, handed, side, Depth(r.chain), Steps(r.chain)) && Depth(r.chain) == Depth(chain)
    decreases upto - n
  {
    if n >= upto || |skipped| >= MAX_SKIP {
    } else {
      var more := skipped[(remote, n) := MessageKey(chain)];
      assert Once(more, handed, side, Depth(chain), Steps(NextChain(chain)));
      SkipToOnce(more, handed, side, NextChain(chain), remote, n + 1, upto);
    }
  }

  /** Received keys come from chains of one side only, and the next will come from later than all so far. */
  ghost predicate ReceiveOk(s: State, handed: seq<MessageKey>, side: bool) {
    if s.recvChain.Some? then
      && Once(s.skipped, handed, side, Depth(s.recvChain.value), Steps(s.recvChain.value))
      && Depth(s.recvChain.value) + 2 == RootDepth(s.root)
      && Even(Depth(s.recvChain.value)) == side
    else Once(s.skipped, handed, side, RootDepth(s.root), 0) && Even(RootDepth(s.root)) == side
  }

  lemma KeyStepOnce(s: State, handed: seq<MessageKey>, side: bool, n: u32)
    requires ReceiveOk(s, handed, side)
    ensures var (s', key) := KeyStep(s, n);
            && ReceiveOk(s', Logged(handed, key), side)
            && s'.root == s.root && s'.sendChain == s.sendChain
  {
    if s.dhRemote.Some? {
      var p := (s.dhRemote.value, n);
      if p in s.skipped {
        if s.recvChain.Some? {
          OnceTaken(s.skipped, handed, side, Depth(s.recvChain.value), Steps(s.recvChain.value), p);
        } else {
          OnceTaken(s.skipped, handed, side, RootDepth(s.root), 0, p);
        }
      } else if n >= s.recvN && s.recvChain.Some? {
        AheadOnce(s, handed, side, n);
      }
    }
  }

  lemma AheadOnce(s: State, handed: seq<MessageKey>, side: bool, n: u32)
    requires s.recvChain.Some? && s.dhRemote.Some? && ReceiveOk(s, handed, side)
    requires (s.dhRemote.value, n) !in s.skipped && n >= s.recvN
    ensures var (s', key) := KeyStep(s, n);
            ReceiveOk(s', Logged(handed, key), side) && s'.root == s.root && s'.sendChain == s.sendChain
  {
    var chain := s.recvChain.value;
    SkipToOnce(s.skipped, handed, side, chain, s.dhRemote.value, s.recvN, n);
    var skip := SkipTo(s.skipped, chain, s.dhRemote.value, s.recvN, n);
    if skip.ok {
      OnceHanded(skip.skipped, handed, side, MessageKey(skip.chain));
    } else {
      EvenSkips(Depth(chain), RootDepth(s.root));
      OnceLater(skip.skipped, handed, side, Depth(skip.chain), Steps(skip.chain), RootDepth(s.root), 0);
    }
  }

  /** The ratchet step opens a later chain on the same side. */
  lemma RatchetOnce(s: State, handed: seq<MessageKey>, side: bool, remote: Public, drawn: Secret)
    requires Even(RootDepth(s.root)) == side && Once(s.skipped, handed, side, RootDepth(s.root), 0)
    ensures ReceiveOk(DhRatchet(s, remote, drawn), handed, side)
    ensures var s' := DhRatchet(s, remote, drawn);
            && RootDepth(s'.root) == RootDepth(s.root) + 2
            && s'.sendChain.Some? && Depth(s'.sendChain.value) + 1 == RootDepth(s'.root)
  {
  }

  lemma ReceiveOnce(s: State, handed: seq<MessageKey>, side: bool, header: Header, drawn: Secret)
    requires ReceiveOk(s, handed, side)
    ensures var (s', key) := ReceiveStep(s, header, drawn);
            && ReceiveOk(s', Logged(handed, key), side)
            && ((s'.root == s.root && s'.sendChain == s.sendChain)
                || (RootDepth(s'.root) == RootDepth(s.root) + 2 && s'.sendChain.Some?
                    && Depth(s'.sendChain.value) + 1 == RootDepth(s'.root)))
  {
    if s.dhRemote == Some(header.dhPub) {
      KeyStepOnce(s, handed, side, header.n);
    } else if s.recvChain.Some? {
      var chain := s.recvChain.value;
      assert Even(RootDepth(s.root)) == Even(Depth(chain));
      var s' := s.(recvChain := None);
      if s.dhRemote.Some? {
        SkipToOnce(s.skipped, handed, side, chain, s.dhRemote.value, s.recvN, header.pn);
        var skip := SkipTo(s.skipped, chain, s.dhRemote.value, s.recvN, header.pn);
        OnceLater(skip.skipped, handed, side, Depth(skip.chain), Steps(skip.chain), RootDepth(s.root), 0);
        s' := s'.(recvN := skip.n, skipped := skip.skipped);
      } else {
        OnceLater(s.skipped, handed, side, Depth(chain), Steps(chain), RootDepth(s.root), 0);
      }
      RatchetOnce(s', handed, side, header.dhPub, drawn);
      KeyStepOnce(DhRatchet(s', header.dhPub, drawn), handed, side, header.n);
    } else {
      RatchetOnce(s, handed, side, header.dhPub, drawn);
      KeyStepOnce(DhRatchet(s, header.dhPub, drawn), handed, side, header.n);
    }
  }

  /** Sealing keys lie on the other side, before the present step of the send chain. */
  ghost predicate SendOk(s: State, sealed: seq<MessageKey>, side: bool) {
    && Distinct(sealed)
    && Even(RootDepth(s.root)) == side
    && (s.sendChain.None? ==> sealed == [])
    && (s.sendChain.Some? ==>
          var c := s.sendChain.value;
          Depth(c) + 1 == RootDepth(s.root) && forall k | k in sealed :: Below(k, !side, Depth(c), Steps(c)))
  }

  ghost predicate TraceOk(t: Trace, side: bool) {
    ReceiveOk(t.s, t.handed, side) && SendOk(t.s, t.sealed, side)
  }

  lemma {:induction false} RunOk(s: State, events: seq<Event>, side: bool)
    requires TraceOk(Trace(s, [], []), side)
    ensures TraceOk(Run(s, events), side)
    decreases |events|
  {
    if events == [] {
    } else {
      var t := Run(s, events[..|events| - 1]);
      RunOk(s, events[..|events| - 1], side);
      match events[|events| - 1]
      case Seal(plaintext) => SealOk(t, plaintext, side);
      case Open(header, ct, drawn) => OpenOk(t, header, ct, drawn, side);
    }
  }

  lemma SealOk(t: Trace, plaintext: seq<byte>, side: bool)
    requires TraceOk(t, side)
    ensures TraceOk(Step(t, Seal(plaintext)), side)
  {
    if t.s.sendChain.Some? { assert MessageKey(t.s.sendChain.value) !in t.sealed; }
  }

  /** Sealing goes on as before after a receipt, or from a later chain after a ratchet step. */
  lemma LaterSends(s: State, s': State, sealed: seq<MessageKey>, side: bool)
    requires SendOk(s, sealed, side)
    requires (s'.root == s.root && s'.sendChain == s.sendChain)
          || (RootDepth(s'.root) == RootDepth(s.root) + 2 && s'.sendChain.Some?
              && Depth(s'.sendChain.value) + 1 == RootDepth(s'.root))
    ensures SendOk(s', sealed, side)
  {
    if RootDepth(s'.root) == RootDepth(s.root) + 2 { EvenSkips(RootDepth(s.root), RootDepth(s'.root)); }
  }

  lemma OpenOk(t: Trace, header: Header, ct: Sealed, drawn: Secret, side: bool)
    requires TraceOk(t, side)
    ensures TraceOk(Step(t, Open(header, ct, drawn)), side)
  {
    var (s', key) := ReceiveStep(t.s, header, drawn);
    var t' := Step(t, Open(header, ct, drawn));
    assert t'.s == s' && t'.sealed == t.sealed && t'.handed == Logged(t.handed, key);
    ReceiveOnce(t.s, t.handed, side, header, drawn);
    LaterSends(t.s, s', t.sealed, side);
  }

  /** Whatever two paired parties send and whatever anyone makes them receive, no key seals two messages,
      whether by one party or by both, and no key is handed out twice for opening. */
  lemma KeysUsedOnce(shared: SharedSecret, remote: Public, first: Secret, spk: Secret,
                     initiatorEvents: seq<Event>, responderEvents: seq<Event>)
    ensures var a := Run(InitInitiator(shared, remote, first), initiatorEvents);
            var b := Run(InitResponder(shared, spk), responderEvents);
            Distinct(a.sealed + b.sealed) && Distinct(a.handed + b.handed)
  {
    RunOk(InitInitiator(shared, remote, first), initiatorEvents, false);
    RunOk(InitResponder(shared, spk), responderEvents, true);
    var a := Run(InitInitiator(shared, remote, first), initiatorEvents);
    var b := Run(InitResponder(shared, spk), responderEvents);
    assert forall k | k in a.sealed :: Even(Depth(k.chain));
    assert forall k | k in b.sealed :: !Even(Depth(k.chain));
    assert forall k | k in a.handed :: !Even(Depth(k.chain));
    assert forall k | k in b.handed :: Even(Depth(k.chain));
  }
}
