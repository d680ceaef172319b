/** What a late message of a chain already left does to a session (core/src/crypto/ratchet.rs): the receiver goes
    on from a root its peer never comes to, so nothing it seals from then on is ever opened. */
module Divergence {
  import opened Bytes
  import opened Wrappers
  import opened SymbolicCrypto
  import opened Ratchet
  import opened Session
  import opened KeyUse
  import Padding

  /** Whether a root comes from another by any number of root steps. */
  ghost predicate Under(root: RootKey, fork: RootKey) {
    root == fork || (root.NextRoot? && Under(root.prev, fork))
  }

  /** The root a chain was split from. */
  ghost function RootOf(chain: ChainKey): RootKey {
    match chain
    case ChainStart(root, _) => root
    case NextChain(prev) => RootOf(prev)
  }

  lemma {:induction false} UnderIsDeeper(root: RootKey, fork: RootKey)
    requires Under(root, fork)
    ensures RootDepth(root) >= RootDepth(fork)
    ensures RootDepth(root) == RootDepth(fork) ==> root == fork
  {
    if root == fork {
    } else {
      UnderIsDeeper(root.prev, fork);
    }
  }

  lemma {:induction false} AdvanceRoot(chain: ChainKey, n: nat)
    ensures RootOf(Advance(chain, n)) == RootOf(chain)
  {
    if n == 0 {
    } else {
      AdvanceRoot(chain, n - 1);
    }
  }

  // ----- the party that strayed -----

  /** All it will seal comes from under the fork. */
  ghost predicate Astray(s: State, fork: RootKey) {
    Under(s.root, fork) && s.sendChain.Some? && Under(RootOf(s.sendChain.value), fork)
  }

  lemma RatchetAstray(s: State, fork: RootKey, remote: Public, drawn: Secret)
    requires Under(s.root, fork)
    ensures Astray(DhRatchet(s, remote, drawn), fork)
  {
    assert Under(NextRoot(s.root, Dh(s.dhSelf, remote)), fork);
  }

  lemma ReceiveAstray(s: State, fork: RootKey, header: Header, drawn: Secret)
    requires Astray(s, fork)
    ensures Astray(ReceiveStep(s, header, drawn).0, fork)
  {
    if s.dhRemote == Some(header.dhPub) {
      KeyStepKeeps(s, header.n);
    } else {
      var s' := Abandoned(s, header);
      RatchetAstray(s', fork, header.dhPub, drawn);
      KeyStepKeeps(DhRatchet(s', header.dhPub, drawn), header.n);
    }
  }

  lemma {:induction false} RunAstray(s: State, fork: RootKey, events: seq<KeyUse.Event>)
    requires Astray(s, fork)
    ensures Astray(KeyUse.Run(s, events).s, fork)
    decreases |events|
  {
    if events == [] {
    } else {
      var before := KeyUse.Run(s, events[..|events| - 1]).s;
      RunAstray(s, fork, events[..|events| - 1]);
      match events[|events| - 1]
      case Seal(_) =>
      case Open(header, _, drawn) => ReceiveAstray(before, fork, header, drawn);
    }
  }

  // ----- its peer -----

  ghost predicate NoneUnder(skipped: SkippedKeys, fork: RootKey) {
    forall p | p in skipped :: !Under(RootOf(skipped[p].chain), fork)
  }

  /** A party none of whose receiving keys comes from under the fork, and which cannot come there either: it is
      past the depth of the fork on another branch, or two root steps short of it with a ratchet key that leads
      there only by drawing the stale scalar again. */
  ghost predicate Clear(s: State, fork: RootKey, own: Secret, stale: Public) {
    && NoneUnder(s.skipped, fork)
    && (s.recvChain.Some? ==> !Under(RootOf(s.recvChain.value), fork))
    && !Under(s.root, fork)
    && (RootDepth(s.root) < RootDepth(fork) ==>
          fork == NextRoot(NextRoot(s.root, Dh(s.dhSelf, PublicOf(own))), Dh(own, stale)))
  }

  lemma {:induction false} SkipToClear(skipped: SkippedKeys, chain: ChainKey, remote: Public, n: u32, upto: u32,
                                       fork: RootKey)
    requires NoneUnder(skipped, fork) && !Under(RootOf(chain), fork)
    ensures var r := SkipTo(skipped, chain, remote, n, upto);
            NoneUnder(r.skipped, fork) && RootOf(r.chain) == RootOf(chain)
    decreases upto - n
  {
    if n >= upto || |skipped| >= MAX_SKIP {
    } else {
      SkipToClear(skipped[(remote, n) := MessageKey(chain)], NextChain(chain), remote, n + 1, upto, fork);
    }
  }

  lemma KeyStepClear(s: State, n: u32, fork: RootKey)
    requires NoneUnder(s.skipped, fork) && (s.recvChain.Some? ==> !Under(RootOf(s.recvChain.value), fork))
    ensures var (s', key) := KeyStep(s, n);
            && NoneUnder(s'.skipped, fork) && (s'.recvChain.Some? ==> !Under(RootOf(s'.recvChain.value), fork))
            && (key.Success? ==> !Under(RootOf(key.value.chain), fork))
  {
    if s.recvChain.Some? && s.dhRemote.Some? {
      SkipToClear(s.skipped, s.recvChain.value, s.dhRemote.value, s.recvN, n, fork);
    }
  }

  lemma AbandonedClear(s: State, header: Header, fork: RootKey, own: Secret, stale: Public)
    requires Clear(s, fork, own, stale)
    ensures Clear(Abandoned(s, header), fork, own, stale)
  {
    if s.recvChain.Some? && s.dhRemote.Some? {
      SkipToClear(s.skipped, s.recvChain.value, s.dhRemote.value, s.recvN, header.pn, fork);
    }
  }

  /** The two root steps of a ratchet step do not lead under the fork. */
  lemma RatchetClear(s: State, fork: RootKey, own: Secret, stale: Public, remote: Public, drawn: Secret)
    requires Clear(s, fork, own, stale) && PublicOf(drawn) != stale
    ensures Clear(DhRatchet(s, remote, drawn), fork, own, stale)
  {
    var root1 := NextRoot(s.root, Dh(s.dhSelf, remote));
    var root2 := NextRoot(root1, Dh(drawn, remote));
    assert RootDepth(root2) == RootDepth(s.root) + 2;
    if RootDepth(s.root) < RootDepth(fork) {
      assert RootDepth(fork) == RootDepth(s.root) + 2;
      assert remote == PublicOf(own) ==> Dh(drawn, remote) != Dh(own, stale);
      assert remote != PublicOf(own) ==> Dh(s.dhSelf, remote) != Dh(s.dhSelf, PublicOf(own));
    }
    assert root1 != fork && root2 != fork;
    assert !Under(root1, fork) && !Under(root2, fork);
  }

  /** Whatever it draws, the next key it takes is not from under the fork; and it stays clear if it draws anything
      but the stale scalar. */
  lemma ReceiveClear(s: State, fork: RootKey, own: Secret, stale: Public, header: Header, drawn: Secret)
    requires Clear(s, fork, own, stale)
    ensures var (s', key) := ReceiveStep(s, header, drawn);
            && (key.Success? ==> !Under(RootOf(key.value.chain), fork))
            && (PublicOf(drawn) != stale ==> Clear(s', fork, own, stale))
  {
    if s.dhRemote == Some(header.dhPub) {
      KeyStepClear(s, header.n, fork);
      KeyStepKeeps(s, header.n);
    } else {
      var s0 := Abandoned(s, header);
      AbandonedClear(s, header, fork, own, stale);
      var s1 := DhRatchet(s0, header.dhPub, drawn);
      if PublicOf(drawn) != stale { RatchetClear(s0, fork, own, stale, header.dhPub, drawn); }
      KeyStepClear(s1, header.n, fork);
      KeyStepKeeps(s1, header.n);
    }
  }

  /** No scalar drawn on the way is the stale one. */
  ghost predicate Fresh(events: seq<KeyUse.Event>, stale: Public) {
    forall event | event in events && event.Open? :: PublicOf(event.drawn) != stale
  }

  lemma {:induction false} RunClear(s: State, fork: RootKey, own: Secret, stale: Public, events: seq<KeyUse.Event>)
    requires Clear(s, fork, own, stale) && Fresh(events, stale)
    ensures Clear(KeyUse.Run(s, events).s, fork, own, stale)
    decreases |events|
  {
    if events == [] {
    } else {
      var before := KeyUse.Run(s, events[..|events| - 1]).s;
      assert events[|events| - 1] in events && forall event | event in events[..|events| - 1] :: event in events;
      RunClear(s, fork, own, stale, events[..|events| - 1]);
      match events[|events| - 1]
      case Seal(_) =>
      case Open(header, _, drawn) => ReceiveClear(before, fork, own, stale, header, drawn);
    }
  }

  // ----- the two together -----

  lemma StrayDepth(net: Session, p: nat, remote: Public)
    requires p < |net.keys|
    ensures RootDepth(StrayRoot(net, p, remote)) == p + 1
  {
    RootAtDepth(net.shared, net.keys, p);
  }

  lemma ShallowIsClear(root: RootKey, fork: RootKey)
    requires RootDepth(root) < RootDepth(fork)
    ensures !Under(root, fork)
  {
    if Under(root, fork) { UnderIsDeeper(root, fork); }
  }

  /** Every key the peer has in store is from a chain older than the fork. */
  lemma PeerStoreClear(net: Session, s: State, q: nat, fork: RootKey)
    requires q < |net.keys| == |net.sent| && SkippedOk(net, s, q) && RootDepth(fork) >= q
    ensures NoneUnder(s.skipped, fork)
  {
    forall key | key in s.skipped
      ensures !Under(RootOf(s.skipped[key].chain), fork)
    {
      var i: nat :| i < |net.keys| && key.0 == PublicOf(net.keys[i]);
      assert EntryOk(net, s, q, i, key.1);
      AdvanceRoot(ChainAt(net.shared, net.keys, i), key.1);
      RootAtDepth(net.shared, net.keys, i - 1);
      ShallowIsClear(RootAt(net.shared, net.keys, i - 1), fork);
    }
  }

  /** So is the chain it follows. */
  lemma PeerChainClear(net: Session, s: State, q: nat, fork: RootKey)
    requires q < |net.keys| == |net.sent| && ChainsOk(net, s, q) && RootDepth(fork) >= q
    ensures s.recvChain.Some? ==> !Under(RootOf(s.recvChain.value), fork)
  {
    if q >= 2 {
      AdvanceRoot(ChainAt(net.shared, net.keys, q - 1), s.recvN);
      RootAtDepth(net.shared, net.keys, q - 2);
      ShallowIsClear(RootAt(net.shared, net.keys, q - 2), fork);
    }
  }

  lemma PeerRootClear(net: Session, to: Party, remote: Public)
    requires Shape(net) && remote != PublicOf(net.keys[net.Index(Peer(to))])
    ensures var p, q := net.Index(to), net.Index(Peer(to));
            var root, fork := RootAt(net.shared, net.keys, q), StrayRoot(net, p, remote);
            && q <= p + 1 && !Under(root, fork)
            && (RootDepth(root) < RootDepth(fork) ==>
                  && q + 1 == p
                  && fork == NextRoot(NextRoot(root, Dh(net.keys[q], PublicOf(net.keys[p]))), Dh(net.keys[p], remote)))
  {
    var p, q := net.Index(to), net.Index(Peer(to));
    var root, fork := RootAt(net.shared, net.keys, q), StrayRoot(net, p, remote);
    HeldByBoth(|net.keys|, to);
    StrayDepth(net, p, remote);
    RootAtDepth(net.shared, net.keys, q);
    if q == p + 1 {
      assert DhAt(net.keys, q) != Dh(net.keys[p], remote);
      assert root != fork;
      if Under(root, fork) { UnderIsDeeper(root, fork); }
    } else {
      ShallowIsClear(root, fork);
    }
  }

  /** At the moment of such a receipt the peer is clear. */
  lemma PeerClear(net: Session, to: Party, remote: Public)
    requires Synced(net) && Foreign(net, to, remote)
    ensures Clear(net.Of(Peer(to)), StrayRoot(net, net.Index(to), remote), net.keys[net.Index(to)], remote)
  {
    var p, q, s := net.Index(to), net.Index(Peer(to)), net.Of(Peer(to));
    var fork := StrayRoot(net, p, remote);
    HeldByBoth(|net.keys|, to);
    assert PartyOk(net, s, q) && Shape(net);
    StrayDepth(net, p, remote);
    PeerRootClear(net, to, remote);
    PeerStoreClear(net, s, q, fork);
    PeerChainClear(net, s, q, fork);
  }

  /** A reply that can be sealed at all is sealed in vain. */
  ghost predicate InVain(s: State, t: State, reply: seq<byte>, drawn: Secret) {
    var sealed := EncryptStep(s, reply).1;
    && (sealed.Success? <==> Padding.PadToBucket(reply).Success?)
    && (sealed.Success? ==> DecryptStep(t, sealed.value.0, sealed.value.1, drawn).1.Failure?)
  }

  /** What one party seals under the fork a clear peer does not open, whatever it draws. */
  lemma Unopened(s: State, t: State, fork: RootKey, own: Secret, stale: Public, reply: seq<byte>, drawn: Secret)
    requires Astray(s, fork) && Clear(t, fork, own, stale)
    ensures InVain(s, t, reply, drawn)
  {
    var sealed := EncryptStep(s, reply).1;
    if sealed.Success? { ReceiveClear(t, fork, own, stale, sealed.value.0, drawn); }
  }

  /** Once a receiver has ratcheted against a key that is neither the one it followed nor its peer's, the session is
      broken for good: whatever it seals and is made to receive from then on, and whatever its peer seals and is made
      to receive, honest or not, as long as the peer does not happen to draw the scalar of that key, no reply the
      receiver can seal is ever opened by the peer. It takes one receipt, opened or refused: a late message or a
      repeat of a chain already left, or a header nobody sealed. */
  lemma RepliesAreLost(net: Session, to: Party, header: Header, ct: Sealed, drawn: Secret,
                       mine: seq<KeyUse.Event>, theirs: seq<KeyUse.Event>, reply: seq<byte>, drawn': Secret)
    requires Synced(net) && Foreign(net, to, header.dhPub) && RoomToAbandon(net.Of(to), header)
    requires Fresh(theirs, header.dhPub)
    ensures InVain(KeyUse.Run(DecryptStep(net.Of(to), header, ct, drawn).0, mine).s,
                   KeyUse.Run(net.Of(Peer(to)), theirs).s, reply, drawn')
  {
    var p := net.Index(to);
    var fork, s := StrayRoot(net, p, header.dhPub), DecryptStep(net.Of(to), header, ct, drawn).0;
    ForeignReceipt(net, to, header, ct, drawn);
    assert Under(s.root, fork);
    RunAstray(s, fork, mine);
    PeerClear(net, to, header.dhPub);
    RunClear(net.Of(Peer(to)), fork, net.keys[p], header.dhPub, theirs);
    Unopened(KeyUse.Run(s, mine).s, KeyUse.Run(net.Of(Peer(to)), theirs).s, fork, net.keys[p], header.dhPub, reply,
             drawn');
  }
}
