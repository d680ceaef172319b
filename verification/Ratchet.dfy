/** The Double Ratchet session object (core/src/crypto/ratchet.rs). The functions are the state
    transformers; the class is the source's object, each method proved to perform its transformer. */
module Ratchet {
  import opened Bytes
  import opened Collections
  import opened Wrappers
  import opened SymbolicCrypto
  import Padding

  const MAX_SKIP: nat := 1000

  datatype Header = Header(dhPub: Public, pn: u32, n: u32)

  type Sealed = Ciphertext<Header>

  type SkippedKeys = map<(Public, u32), MessageKey>

  datatype State = State(
    dhSelf: Secret,
    dhRemote: Option<Public>,
    root: RootKey,
    sendChain: Option<ChainKey>,
    recvChain: Option<ChainKey>,
    sendN: u32,
    recvN: u32,
    prevSendN: u32,
    skipped: SkippedKeys)

  /** Counters are 32 bits wide and wrap. */
  function Bump(n: u32): u32 {
    (n + 1) % U32_LIMIT
  }

  function InitInitiator(shared: SharedSecret, remote: Public, drawn: Secret): State {
    var (root, send) := KdfRk(Seed(shared), Dh(drawn, remote));
    State(drawn, Some(remote), root, Some(send), None, 0, 0, 0, map[])
  }

  function InitResponder(shared: SharedSecret, own: Secret): State {
    State(own, None, Seed(shared), None, None, 0, 0, 0, map[])
  }

  /** The key is spent and the number used up before the plaintext is found to be too large. */
  function EncryptStep(s: State, plaintext: seq<byte>): (State, Result<(Header, Sealed)>) {
    match s.sendChain
    case None => (s, Failure(NoSendingChain))
    case Some(chain) =>
      var (next, mk) := KdfCk(chain);
      var header := Header(PublicOf(s.dhSelf), s.prevSendN, s.sendN);
      var s' := s.(sendChain := Some(next), sendN := Bump(s.sendN));
      match Padding.PadToBucket(plaintext)
      case Failure(e) => (s', Failure(e))
      case Success(padded) => (s', Success((header, Ciphertext.Sealed(mk, header, padded))))
  }

  function DhRatchet(s: State, remote: Public, drawn: Secret): State {
    var (root1, recv) := KdfRk(s.root, Dh(s.dhSelf, remote));
    var (root2, send) := KdfRk(root1, Dh(drawn, remote));
    State(drawn, Some(remote), root2, Some(send), Some(recv), 0, 0, s.sendN, s.skipped)
  }

  datatype SkipOutcome = SkipOutcome(ok: bool, chain: ChainKey, n: u32, skipped: SkippedKeys)

  /** Store the key of every number from `n` up to `upto`, giving up when the store is full. */
  function SkipTo(skipped: SkippedKeys, chain: ChainKey, remote: Public, n: u32, upto: u32): SkipOutcome
    decreases upto - n
  {
    if n >= upto then SkipOutcome(true, chain, n, skipped)
    else if |skipped| >= MAX_SKIP then SkipOutcome(false, NextChain(chain), n, skipped)
    else SkipTo(skipped[(remote, n) := MessageKey(chain)], NextChain(chain), remote, n + 1, upto)
  }

  function KeyStep(s: State, n: u32): (State, Result<MessageKey>) {
    if s.dhRemote.None? then (s, Failure(NoRemoteKey))
    else
      var remote := s.dhRemote.value;
      if (remote, n) in s.skipped then
        (s.(skipped := s.skipped - {(remote, n)}), Success(s.skipped[(remote, n)]))
      else if n < s.recvN then (s, Failure(KeyAlreadyConsumed))
      else if s.recvChain.None? then (s, Failure(NoReceivingChain))
      else
        var skip := SkipTo(s.skipped, s.recvChain.value, remote, s.recvN, n);
        var s' := s.(recvChain := None, recvN := skip.n, skipped := skip.skipped);
        if !skip.ok then (s', Failure(TooManySkipped))
        else (s'.(recvChain := Some(NextChain(skip.chain)), recvN := Bump(skip.n)), Success(MessageKey(skip.chain)))
  }

  /** The message key a header leads to: the ratchet step comes before the skipped-key lookup. */
  function ReceiveStep(s: State, header: Header, drawn: Secret): (State, Result<MessageKey>) {
    if s.dhRemote == Some(header.dhPub) then KeyStep(s, header.n)
    else if s.recvChain.Some? && s.dhRemote.Some? then
      var skip := SkipTo(s.skipped, s.recvChain.value, s.dhRemote.value, s.recvN, header.pn);
      var s' := s.(recvChain := None, recvN := skip.n, skipped := skip.skipped);
      if !skip.ok then (s', Failure(TooManySkipped))
      else KeyStep(DhRatchet(s', header.dhPub, drawn), header.n)
    else KeyStep(DhRatchet(s.(recvChain := None), header.dhPub, drawn), header.n)
  }

  /** Not transactional: when the ciphertext does not open, the state has moved all the same. */
  function DecryptStep(s: State, header: Header, ct: Sealed, drawn: Secret): (State, Result<seq<byte>>) {
    var (s', key) := ReceiveStep(s, header, drawn);
    if key.Failure? then (s', Failure(key.error))
    else
      var padded := AeadOpen(key.value, header, ct);
      (s', if padded.Failure? then Failure(padded.error) else Padding.Unpad(padded.value))
  }

  /** The numbers `n` up to `upto` of one ratchet key. */
  ghost function Numbers(remote: Public, n: u32, upto: u32): set<(Public, u32)>
    decreases upto - n
  {
    if n >= upto then {} else {(remote, n)} + Numbers(remote, n + 1, upto)
  }

  lemma {:induction false} NumbersCount(remote: Public, n: u32, upto: u32)
    ensures forall key :: key in Numbers(remote, n, upto) <==> key.0 == remote && n <= key.1 < upto
    ensures n <= upto ==> |Numbers(remote, n, upto)| == upto - n
    decreases upto - n
  {
    if n >= upto {
    } else {
      NumbersCount(remote, n + 1, upto);
    }
  }

  /** How far a skip loop gets, and that it keeps the bound. */
  lemma {:induction false} SkipToReaches(skipped: SkippedKeys, chain: ChainKey, remote: Public, n: u32, upto: u32)
    ensures var r := SkipTo(skipped, chain, remote, n, upto);
            && n <= r.n
            && (r.ok ==> r.n == (if n < upto then upto else n))
            && (!r.ok ==> r.n < upto && |r.skipped| >= MAX_SKIP)
            && (|skipped| <= MAX_SKIP ==> |r.skipped| <= MAX_SKIP)
    decreases upto - n
  {
    if n >= upto || |skipped| >= MAX_SKIP {
    } else {
      InsertCount(skipped, (remote, n), MessageKey(chain));
      SkipToReaches(skipped[(remote, n) := MessageKey(chain)], NextChain(chain), remote, n + 1, upto);
    }
  }

  /** What a skip loop leaves behind: each passed number under the key of its own place on the chain,
      and every other entry as it was. */
  lemma {:induction false} SkipToEntry(skipped: SkippedKeys, chain: ChainKey, remote: Public, n: u32, upto: u32,
                                       key: (Public, u32))
    ensures var r := SkipTo(skipped, chain, remote, n, upto);
            && n <= r.n
            && if key.0 == remote && n <= key.1 < r.n
               then key in r.skipped && r.skipped[key] == MessageKey(Advance(chain, key.1 - n))
               else (key in r.skipped <==> key in skipped) && (key in skipped ==> r.skipped[key] == skipped[key])
    decreases upto - n
  {
    if n >= upto || |skipped| >= MAX_SKIP {
    } else {
      SkipToEntry(skipped[(remote, n) := MessageKey(chain)], NextChain(chain), remote, n + 1, upto, key);
      if key.0 == remote && n < key.1 { AdvanceNext(chain, key.1 - n - 1); }
    }
  }

  lemma SkipToStores(skipped: SkippedKeys, chain: ChainKey, remote: Public, n: u32, upto: u32)
    ensures n <= SkipTo(skipped, chain, remote, n, upto).n
    ensures var r := SkipTo(skipped, chain, remote, n, upto);
            r.skipped.Keys == skipped.Keys + Numbers(remote, n, r.n)
  {
    var r := SkipTo(skipped, chain, remote, n, upto);
    NumbersCount(remote, n, r.n);
    SkipToReaches(skipped, chain, remote, n, upto);
    forall key
      ensures key in r.skipped <==> key in skipped || key in Numbers(remote, n, r.n)
    {
      SkipToEntry(skipped, chain, remote, n, upto, key);
    }
  }

  lemma {:induction false} SkipToChain(skipped: SkippedKeys, chain: ChainKey, remote: Public, n: u32, upto: u32)
    requires SkipTo(skipped, chain, remote, n, upto).ok && n <= upto
    ensures SkipTo(skipped, chain, remote, n, upto).chain == Advance(chain, upto - n)
    decreases upto - n
  {
    if n >= upto {
    } else {
      SkipToChain(skipped[(remote, n) := MessageKey(chain)], NextChain(chain), remote, n + 1, upto);
      AdvanceNext(chain, upto - n - 1);
    }
  }

  /** When none of the numbers is stored yet, the loop completes exactly when they all fit. */
  lemma {:induction false} SkipToFits(skipped: SkippedKeys, chain: ChainKey, remote: Public, n: u32, upto: u32)
    requires forall key | key in skipped :: !(key.0 == remote && n <= key.1 < upto)
    ensures SkipTo(skipped, chain, remote, n, upto).ok <==> n >= upto || |skipped| + (upto - n) <= MAX_SKIP
    ensures SkipTo(skipped, chain, remote, n, upto).ok && n <= upto ==>
              |SkipTo(skipped, chain, remote, n, upto).skipped| == |skipped| + (upto - n)
    decreases upto - n
  {
    if n >= upto || |skipped| >= MAX_SKIP {
    } else {
      var more := skipped[(remote, n) := MessageKey(chain)];
      InsertCount(skipped, (remote, n), MessageKey(chain));
      SkipToFits(more, NextChain(chain), remote, n + 1, upto);
    }
  }

  /** The message key of a number the receiver has not reached, when none up to it is stored. */
  lemma KeyStepAhead(s: State, n: u32)
    requires s.dhRemote.Some? && s.recvChain.Some? && s.recvN <= n && n + 1 < U32_LIMIT
    requires forall key | key in s.skipped :: !(key.0 == s.dhRemote.value && s.recvN <= key.1 <= n)
    ensures var skip := SkipTo(s.skipped, s.recvChain.value, s.dhRemote.value, s.recvN, n);
            var last := Advance(s.recvChain.value, n - s.recvN);
            if |s.skipped| + (n - s.recvN) <= MAX_SKIP || n == s.recvN then
              && skip.n == n && |skip.skipped| == |s.skipped| + (n - s.recvN)
              && KeyStep(s, n) == (s.(recvChain := Some(NextChain(last)), recvN := n + 1, skipped := skip.skipped),
                                   Success(MessageKey(last)))
            else KeyStep(s, n).1 == Failure(TooManySkipped)
  {
    SkipToFits(s.skipped, s.recvChain.value, s.dhRemote.value, s.recvN, n);
    SkipToReaches(s.skipped, s.recvChain.value, s.dhRemote.value, s.recvN, n);
    if SkipTo(s.skipped, s.recvChain.value, s.dhRemote.value, s.recvN, n).ok {
      SkipToChain(s.skipped, s.recvChain.value, s.dhRemote.value, s.recvN, n);
    }
  }

  /** How many times a key is put in the store, overwrites included. */
  ghost function KeyStores(s: State, n: u32): nat {
    if s.dhRemote.None? || (s.dhRemote.value, n) in s.skipped || n < s.recvN || s.recvChain.None? then 0
    else
      SkipToStores(s.skipped, s.recvChain.value, s.dhRemote.value, s.recvN, n);
      SkipTo(s.skipped, s.recvChain.value, s.dhRemote.value, s.recvN, n).n - s.recvN
  }

  ghost function ReceiveStores(s: State, header: Header, drawn: Secret): nat {
    if s.dhRemote == Some(header.dhPub) then KeyStores(s, header.n)
    else if s.recvChain.Some? && s.dhRemote.Some? then
      SkipToStores(s.skipped, s.recvChain.value, s.dhRemote.value, s.recvN, header.pn);
      var skip := SkipTo(s.skipped, s.recvChain.value, s.dhRemote.value, s.recvN, header.pn);
      var s' := s.(recvChain := None, recvN := skip.n, skipped := skip.skipped);
      (skip.n - s.recvN) + if skip.ok then KeyStores(DhRatchet(s', header.dhPub, drawn), header.n) else 0
    else KeyStores(DhRatchet(s.(recvChain := None), header.dhPub, drawn), header.n)
  }

  /** Whatever `pn` and `n` a header claims, one decryption stores at most a thousand keys and leaves at most a
      thousand stored: the keys it stores are all different and all still there when it stops. */
  lemma StoresBounded(s: State, header: Header, drawn: Secret)
    requires |s.skipped| <= 1000
    ensures |ReceiveStep(s, header, drawn).0.skipped| <= 1000
    ensures ReceiveStores(s, header, drawn) <= 1000
  {
    if s.dhRemote == Some(header.dhPub) {
      KeyStoresFit(s, header.n, {});
    } else if s.recvChain.Some? && s.dhRemote.Some? {
      var remote := s.dhRemote.value;
      SkipToStores(s.skipped, s.recvChain.value, remote, s.recvN, header.pn);
      SkipToReaches(s.skipped, s.recvChain.value, remote, s.recvN, header.pn);
      var skip := SkipTo(s.skipped, s.recvChain.value, remote, s.recvN, header.pn);
      var first := Numbers(remote, s.recvN, skip.n);
      NumbersCount(remote, s.recvN, skip.n);
      SubsetSize(first, skip.skipped.Keys);
      if skip.ok {
        var s' := s.(recvChain := None, recvN := skip.n, skipped := skip.skipped);
        KeyStoresFit(DhRatchet(s', header.dhPub, drawn), header.n, first);
      }
    } else {
      KeyStoresFit(DhRatchet(s.(recvChain := None), header.dhPub, drawn), header.n, {});
    }
  }

  lemma KeyStoresFit(s: State, n: u32, earlier: set<(Public, u32)>)
    requires |s.skipped| <= MAX_SKIP && earlier <= s.skipped.Keys
    requires forall key | key in earlier :: Some(key.0) != s.dhRemote
    ensures |KeyStep(s, n).0.skipped| <= MAX_SKIP
    ensures |earlier| + KeyStores(s, n) <= MAX_SKIP
  {
    SubsetSize(earlier, s.skipped.Keys);
    if s.dhRemote.Some? {
      var key := (s.dhRemote.value, n);
      if key in s.skipped {
        assert (s.skipped - {key}).Keys == s.skipped.Keys - {key};
        SubsetSize((s.skipped - {key}).Keys, s.skipped.Keys);
      } else if n >= s.recvN && s.recvChain.Some? {
        SkipToStores(s.skipped, s.recvChain.value, s.dhRemote.value, s.recvN, n);
        SkipToReaches(s.skipped, s.recvChain.value, s.dhRemote.value, s.recvN, n);
        var skip := SkipTo(s.skipped, s.recvChain.value, s.dhRemote.value, s.recvN, n);
        var later := Numbers(s.dhRemote.value, s.recvN, skip.n);
        NumbersCount(s.dhRemote.value, s.recvN, skip.n);
        assert |earlier + later| == |earlier| + |later| by { assert earlier !! later; }
        SubsetSize(earlier + later, skip.skipped.Keys);
      }
    }
  }

  // ----- what is sealed, and what opens -----

  /** A message is sealed by a party that has a sending chain if it is not too long, under the next key of that chain
      and bound to a header with the party's ratchet key, the length of its previous chain and the number. */
  lemma SealsAsSaid(s: State, plaintext: seq<byte>)
    ensures var (s', r) := EncryptStep(s, plaintext);
            && (r.Success? <==> s.sendChain.Some? && |plaintext| <= 65532)
            && (s.sendChain.None? ==> s' == s && r == Failure(NoSendingChain))
            && (s.sendChain.Some? ==>
                  && s' == s.(sendChain := Some(NextChain(s.sendChain.value)), sendN := (s.sendN + 1) % 0x1_0000_0000)
                  && (r.Failure? ==> r == Failure(Malformed)))
            && (r.Success? ==>
                  var (header, ct) := r.value;
                  && header == Header(PublicOf(s.dhSelf), s.prevSendN, s.sendN)
                  && ct.Sealed? && ct.ad == header && ct.key == MessageKey(s.sendChain.value)
                  && Padding.Holds(ct.padded, plaintext))
  {
    Padding.PadHolds(plaintext);
  }

  /** What opens was sealed, under the key the header leads to and bound to that very header, and the plaintext is
      the content of what was sealed. Of every state, header and ciphertext, and the other way round. */
  lemma OpensAsSealed(s: State, header: Header, ct: Sealed, drawn: Secret, plaintext: seq<byte>)
    ensures DecryptStep(s, header, ct, drawn).1 == Success(plaintext)
       <==> ct.Sealed? && ct.ad == header && ReceiveStep(s, header, drawn).1 == Success(ct.key)
            && |plaintext| < U32_LIMIT && ToLe(|plaintext|, 4) + plaintext <= ct.padded
  {
    if ct.Sealed? { Padding.UnpadReads(ct.padded, plaintext); }
  }

  /** How far ahead a fresh receiver looks, in numbers. */
  lemma FirstGap(shared: SharedSecret, own: Secret, header: Header, drawn: Secret)
    ensures ReceiveStep(InitResponder(shared, own), header, drawn).1.Success? <==> header.n <= 1000
    ensures header.n > 1000 ==>
              ReceiveStep(InitResponder(shared, own), header, drawn).1 == Failure(TooManySkipped)
  {
    var s := DhRatchet(InitResponder(shared, own), header.dhPub, drawn);
    SkipToFits(s.skipped, s.recvChain.value, header.dhPub, 0, header.n);
  }

  /** A receipt that fills the store leaves it full, keeps what was stored, and costs the receiving chain. */
  lemma OverflowLeaves(s: State, header: Header, drawn: Secret)
    requires |s.skipped| <= 1000 && ReceiveStep(s, header, drawn).1 == Failure(TooManySkipped)
    ensures var s' := ReceiveStep(s, header, drawn).0;
            |s'.skipped| == 1000 && s.skipped.Keys <= s'.skipped.Keys && s'.recvChain == None
  {
    StoresBounded(s, header, drawn);
    if s.dhRemote == Some(header.dhPub) {
      OverflowKey(s, header.n);
    } else if s.recvChain.Some? && s.dhRemote.Some? {
      var remote := s.dhRemote.value;
      SkipToReaches(s.skipped, s.recvChain.value, remote, s.recvN, header.pn);
      SkipToStores(s.skipped, s.recvChain.value, remote, s.recvN, header.pn);
      var skip := SkipTo(s.skipped, s.recvChain.value, remote, s.recvN, header.pn);
      var s' := s.(recvChain := None, recvN := skip.n, skipped := skip.skipped);
      if skip.ok { OverflowKey(DhRatchet(s', header.dhPub, drawn), header.n); }
    } else {
      OverflowKey(DhRatchet(s.(recvChain := None), header.dhPub, drawn), header.n);
    }
  }

  lemma OverflowKey(s: State, n: u32)
    requires KeyStep(s, n).1 == Failure(TooManySkipped)
    ensures var s' := KeyStep(s, n).0;
            |s'.skipped| >= 1000 && s.skipped.Keys <= s'.skipped.Keys && s'.recvChain == None
  {
    SkipToReaches(s.skipped, s.recvChain.value, s.dhRemote.value, s.recvN, n);
    SkipToStores(s.skipped, s.recvChain.value, s.dhRemote.value, s.recvN, n);
  }

  lemma KeyStepKeeps(s: State, n: u32)
    ensures var s' := KeyStep(s, n).0;
            s'.root == s.root && s'.sendChain == s.sendChain && s'.dhSelf == s.dhSelf && s'.dhRemote == s.dhRemote
  {
  }

  /** A number of the chain followed that is neither stored nor still to come, or no chain to find it on. */
  predicate Ignored(s: State, header: Header) {
    && s.dhRemote == Some(header.dhPub) && (header.dhPub, header.n) !in s.skipped
    && (header.n < s.recvN || s.recvChain.None?)
  }

  /** What a receipt costs that turns out to be no message: the root, the receiving chain or a stored key. */
  ghost predicate Costs(s: State, s': State, header: Header) {
    || s'.root != s.root
    || s'.recvChain != s.recvChain
    || ((header.dhPub, header.n) in s.skipped && (header.dhPub, header.n) !in s'.skipped)
  }

  lemma KeyStepCosts(s: State, header: Header)
    requires s.dhRemote == Some(header.dhPub) && !Ignored(s, header)
    ensures Costs(s, KeyStep(s, header.n).0, header)
  {
    if (header.dhPub, header.n) !in s.skipped {
      var chain := s.recvChain.value;
      if SkipTo(s.skipped, chain, header.dhPub, s.recvN, header.n).ok {
        SkipToChain(s.skipped, chain, header.dhPub, s.recvN, header.n);
        AdvanceShape(chain, header.n - s.recvN);
      }
    }
  }

  lemma RatchetCosts(s: State, remote: Public, drawn: Secret, n: u32)
    ensures KeyStep(DhRatchet(s, remote, drawn), n).0.root != s.root
  {
    KeyStepKeeps(DhRatchet(s, remote, drawn), n);
    assert RootDepth(DhRatchet(s, remote, drawn).root) == RootDepth(s.root) + 2;
  }

  /** Receiving is not transactional. Whatever bytes come, sealed by anyone or by nobody, the receiver is left as it
      was exactly when the header names the key followed and a number that is neither stored nor still to come, and
      then nothing opens; any other receipt, opened or not, costs the root, the receiving chain or a stored key. */
  lemma ReceiptLeavesIff(s: State, header: Header, ct: Sealed, drawn: Secret)
    ensures DecryptStep(s, header, ct, drawn).0 == s <==> Ignored(s, header)
    ensures Ignored(s, header) ==>
              DecryptStep(s, header, ct, drawn).1
              == Failure(if header.n < s.recvN then KeyAlreadyConsumed else NoReceivingChain)
    ensures !Ignored(s, header) ==> Costs(s, DecryptStep(s, header, ct, drawn).0, header)
  {
    if s.dhRemote == Some(header.dhPub) {
      if !Ignored(s, header) { KeyStepCosts(s, header); }
    } else {
      RatchetCosts(s, header.dhPub, drawn, header.n);
      if s.recvChain.Some? && s.dhRemote.Some? {
        var skip := SkipTo(s.skipped, s.recvChain.value, s.dhRemote.value, s.recvN, header.pn);
        var s' := s.(recvChain := None, recvN := skip.n, skipped := skip.skipped);
        RatchetCosts(s', header.dhPub, drawn, header.n);
      } else {
        RatchetCosts(s.(recvChain := None), header.dhPub, drawn, header.n);
      }
    }
  }

  class DoubleRatchet {
    var dhSelf: Secret
    var dhRemote: Option<Public>
    var root: RootKey
    var sendChain: Option<ChainKey>
    var recvChain: Option<ChainKey>
    var sendN: u32
    var recvN: u32
    var prevSendN: u32
    var skipped: SkippedKeys
    /** How often a key was ever put in `skipped`, overwrites included. */
    ghost var stores: nat

    function View(): State
      reads this
    {
      State(dhSelf, dhRemote, root, sendChain, recvChain, sendN, recvN, prevSendN, skipped)
    }

    constructor Initiator(shared: SharedSecret, remote: Public, drawn: Secret)
      ensures View() == InitInitiator(shared, remote, drawn)
    {
      var (newRoot, send) := KdfRk(Seed(shared), Dh(drawn, remote));
      dhSelf, dhRemote, root := drawn, Some(remote), newRoot;
      sendChain, recvChain := Some(send), None;
      sendN, recvN, prevSendN, skipped, stores := 0, 0, 0, map[], 0;
    }

    constructor Responder(shared: SharedSecret, own: Secret)
      ensures View() == InitResponder(shared, own)
    {
      dhSelf, dhRemote, root := own, None, Seed(shared);
      sendChain, recvChain := None, None;
      sendN, recvN, prevSendN, skipped, stores := 0, 0, 0, map[], 0;
    }

    method Encrypt(plaintext: seq<byte>) returns (r: Result<(Header, Sealed)>)
      modifies this
      ensures (View(), r) == EncryptStep(old(View()), plaintext)
    {
      if sendChain.None? { return Failure(NoSendingChain); }
      var (next, mk) := KdfCk(sendChain.value);
      sendChain := Some(next);
      var header := Header(PublicOf(dhSelf), prevSendN, sendN);
      sendN := Bump(sendN);
      var padded := Padding.PadToBucket(plaintext);
      if padded.Failure? { return Failure(padded.error); }
      r := Success((header, Ciphertext.Sealed(mk, header, padded.value)));
    }

    method Decrypt(header: Header, ct: Sealed, drawn: Secret) returns (r: Result<seq<byte>>)
      modifies this
      ensures (View(), r) == DecryptStep(old(View()), header, ct, drawn)
      ensures |old(skipped)| <= 1000 ==> |skipped| <= 1000 && stores <= old(stores) + 1000
      ensures r.Success? ==> ct.Sealed? && ct.ad == header && ToLe(|r.value|, 4) + r.value <= ct.padded
    {
      if |skipped| <= MAX_SKIP { StoresBounded(View(), header, drawn); }
      ghost var result := DecryptStep(View(), header, ct, drawn).1;
      if result.Success? { OpensAsSealed(View(), header, ct, drawn, result.value); }
      if dhRemote != Some(header.dhPub) {
        var taken := recvChain;
        recvChain := None;
        if taken.Some? && dhRemote.Some? {
          var ok := SkipChain(taken.value, dhRemote.value, header.pn);
          if !ok { return Failure(TooManySkipped); }
        }
        RatchetStep(header.dhPub, drawn);
      }
      var key := MessageKeyFor(header.n);
      if key.Failure? { return Failure(key.error); }
      var padded := AeadOpen(key.value, header, ct);
      if padded.Failure? { return Failure(padded.error); }
      r := Padding.Unpad(padded.value);
    }

    method RatchetStep(remote: Public, drawn: Secret)
      modifies this
      ensures View() == DhRatchet(old(View()), remote, drawn) && stores == old(stores)
    {
      prevSendN, sendN, recvN, dhRemote := sendN, 0, 0, Some(remote);
      var (root1, recv) := KdfRk(root, Dh(dhSelf, remote));
      root, recvChain := root1, Some(recv);
      dhSelf := drawn;
      var (root2, send) := KdfRk(root, Dh(dhSelf, remote));
      root, sendChain := root2, Some(send);
    }

    method SkipChain(start: ChainKey, remote: Public, upto: u32) returns (ok: bool)
      modifies this`recvN, this`skipped, this`stores
      ensures var skip := SkipTo(old(skipped), start, remote, old(recvN), upto);
              ok == skip.ok && recvN == skip.n && skipped == skip.skipped
      ensures stores + old(recvN) == old(stores) + recvN
    {
      var chain := start;
      while recvN < upto
        invariant stores + old(recvN) == old(stores) + recvN
        invariant SkipTo(skipped, chain, remote, recvN, upto) == SkipTo(old(skipped), start, remote, old(recvN), upto)
        decreases upto - recvN
      {
        var (next, mk) := KdfCk(chain);
        chain := next;
        var stored := StoreSkipped((remote, recvN), mk);
        if !stored { return false; }
        recvN := recvN + 1;
      }
      ok := true;
    }

    method MessageKeyFor(n: u32) returns (r: Result<MessageKey>)
      modifies this`recvChain, this`recvN, this`skipped, this`stores
      ensures (View(), r) == KeyStep(old(View()), n)
      ensures stores == old(stores) + KeyStores(old(View()), n)
    {
      if dhRemote.None? { return Failure(NoRemoteKey); }
      var remote := dhRemote.value;
      if (remote, n) in skipped {
        r := Success(skipped[(remote, n)]);
        skipped := skipped - {(remote, n)};
        return;
      }
      if n < recvN { return Failure(KeyAlreadyConsumed); }
      if recvChain.None? { return Failure(NoReceivingChain); }
      var chain := recvChain.value;
      recvChain := None;
      while recvN < n
        invariant recvN <= n && recvChain == None
        invariant stores + old(recvN) == old(stores) + recvN
        invariant SkipTo(skipped, chain, remote, recvN, n)
               == SkipTo(old(skipped), old(recvChain).value, remote, old(recvN), n)
        decreases n - recvN
      {
        var (next, mk) := KdfCk(chain);
        chain := next;
        var stored := StoreSkipped((remote, recvN), mk);
        if !stored { return Failure(TooManySkipped); }
        recvN := recvN + 1;
      }
      var (next, mk) := KdfCk(chain);
      recvChain := Some(next);
      recvN := Bump(recvN);
      r := Success(mk);
    }

    method StoreSkipped(key: (Public, u32), mk: MessageKey) returns (stored: bool)
      modifies this`skipped, this`stores
      ensures stores == old(stores) + (if stored then 1 else 0)
      ensures stored == (|old(skipped)| < MAX_SKIP)
      ensures skipped == if stored then old(skipped)[key := mk] else old(skipped)
    {
      if |skipped| >= MAX_SKIP { return false; }
      skipped, stores := skipped[key := mk], stores + 1;
      stored := true;
    }
  }
}
