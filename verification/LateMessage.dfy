/** A short exchange in which nothing is lost and one message is merely late. */
module LateMessage {
  import opened Bytes
  import opened Wrappers
  import opened SymbolicCrypto
  import opened Ratchet
  import opened Session
  import Divergence
  import KeyUse
  import Padding

  /** The initiator sends two messages; the first arrives, the responder answers, the initiator writes again
      and that arrives too. The second message is still under way. */
  const EXCHANGE: seq<Event> := [
    Send(Initiator, []),
    Send(Initiator, []),
    Deliver(Responder, 1, 0, Secret(2)),
    Send(Responder, []),
    Deliver(Initiator, 2, 0, Secret(3)),
    Send(Initiator, []),
    Deliver(Responder, 3, 0, Secret(4))]

  /** The session after the first `k` events. */
  function After(shared: SharedSecret, k: nat): Session
    requires k <= |EXCHANGE|
  {
    Run(Start(shared, Secret(0), Secret(1)), EXCHANGE[..k])
  }

  lemma AfterNext(shared: SharedSecret, k: nat)
    requires k < |EXCHANGE|
    ensures |After(shared, k).keys| == |After(shared, k).sent| >= 2
    ensures After(shared, k + 1) == Step(After(shared, k), EXCHANGE[k])
    ensures LegalRun(Start(shared, Secret(0), Secret(1)), EXCHANGE[..k]) && Legal(After(shared, k), EXCHANGE[k]) ==>
              LegalRun(Start(shared, Secret(0), Secret(1)), EXCHANGE[..k + 1])
  {
    assert EXCHANGE[..k + 1][..k] == EXCHANGE[..k];
  }

  predicate Idle(s: State, dhSelf: Secret, remote: Option<Public>, sendN: u32, recvN: u32, prevSendN: u32) {
    && s.dhSelf == dhSelf && s.dhRemote == remote && s.sendChain.Some?
    && s.sendN == sendN && s.recvN == recvN && s.prevSendN == prevSendN && s.skipped == map[]
  }

  /** Receiving the first message of a new chain with nothing to skip. */
  lemma NewChain(s: State, header: Header, drawn: Secret)
    requires s.skipped == map[] && s.dhRemote != Some(header.dhPub) && header.n == 0
    requires s.recvChain.None? || header.pn <= s.recvN
    ensures var (s', key) := ReceiveStep(s, header, drawn);
            key.Success? && Idle(s', drawn, Some(header.dhPub), 0, 1, s.sendN) && s'.recvChain.Some?
  {
  }

  /** Moving on to a new chain over one missing message of the old one. */
  lemma NewChainOverOne(s: State, header: Header, drawn: Secret)
    requires s.skipped == map[] && s.dhRemote.Some? && s.dhRemote != Some(header.dhPub) && s.recvChain.Some?
    requires header.pn == s.recvN + 1
    ensures ReceiveStep(s, header, drawn).0.dhSelf == drawn
  {
    SkipToFits(s.skipped, s.recvChain.value, s.dhRemote.value, s.recvN, header.pn);
  }

  /** What a delivery that makes the receiver take a new ratchet key does to the session. */
  lemma DeliverStep(net: Session, to: Party, chain: nat, n: nat, drawn: Secret)
    requires |net.keys| == |net.sent| >= 2 && net.Exists(chain, n)
    requires ReceiveStep(net.Of(to), net.sent[chain][n].value.header, drawn).0.dhSelf == drawn != net.Of(to).dhSelf
    ensures var net' := Step(net, Deliver(to, chain, n, drawn));
            && net'.keys == net.keys + [drawn] && net'.sent == net.sent + [[]]
            && net'.delivered <= net.delivered + {(chain, n)}
            && net'.Of(to) == ReceiveStep(net.Of(to), net.sent[chain][n].value.header, drawn).0
            && net'.Of(Peer(to)) == net.Of(Peer(to))
  {
  }

  /** How the session stands after two events: two messages sent. */
  predicate AtTwo(net: Session, shared: SharedSecret) {
    && net.keys == [Secret(0), Secret(1)] && |net.sent| == 2 && |net.sent[1]| == 2 && net.delivered == {}
    && Idle(net.initiator, Secret(1), Some(Public(0)), 2, 0, 0) && net.initiator.recvChain.None?
    && net.responder == InitResponder(shared, Secret(0))
    && (forall n: u32 | n < 2 :: net.sent[1][n].Some? && net.sent[1][n].value.header == Header(Public(1), 0, n))
  }

  lemma AfterTwo(shared: SharedSecret)
    ensures LegalRun(Start(shared, Secret(0), Secret(1)), EXCHANGE[..2])
    ensures AtTwo(After(shared, 2), shared)
  {
    Padding.PadUnpad([]);
    assert Owner(1) == Initiator;
    AfterNext(shared, 0);
    AfterNext(shared, 1);
  }

  /** The first has arrived. */
  predicate AtThree(net: Session, two: Session) {
    && |two.sent| == 2
    && net.keys == [Secret(0), Secret(1), Secret(2)] && |net.sent| == 3 && net.sent[2] == []
    && net.sent[1] == two.sent[1] && net.delivered <= {(1, 0)} && net.initiator == two.initiator
    && Idle(net.responder, Secret(2), Some(Public(1)), 0, 1, 0) && net.responder.recvChain.Some?
  }

  lemma ToThree(two: Session, shared: SharedSecret)
    requires AtTwo(two, shared)
    ensures Legal(two, Deliver(Responder, 1, 0, Secret(2)))
    ensures AtThree(Step(two, Deliver(Responder, 1, 0, Secret(2))), two)
  {
    assert Owner(1) == Initiator;
    NewChain(two.responder, Header(Public(1), 0, 0), Secret(2));
    DeliverStep(two, Responder, 1, 0, Secret(2));
  }

  /** The responder has answered. */
  predicate AtFour(net: Session, two: Session) {
    && |two.sent| == 2
    && net.keys == [Secret(0), Secret(1), Secret(2)] && |net.sent| == 3 && |net.sent[2]| == 1
    && net.sent[2][0].Some? && net.sent[2][0].value.header == Header(Public(2), 0, 0)
    && net.sent[1] == two.sent[1] && net.delivered <= {(1, 0)} && net.initiator == two.initiator
    && Idle(net.responder, Secret(2), Some(Public(1)), 1, 1, 0) && net.responder.recvChain.Some?
  }

  lemma ToFour(net: Session, two: Session)
    requires AtThree(net, two)
    ensures Legal(net, Send(Responder, [])) && AtFour(Step(net, Send(Responder, [])), two)
  {
    Padding.PadUnpad([]);
    assert Owner(2) == Responder;
  }

  /** The answer has arrived. */
  predicate AtFive(net: Session, two: Session, four: Session) {
    && |two.sent| == 2
    && net.keys == [Secret(0), Secret(1), Secret(2), Secret(3)] && |net.sent| == 4 && net.sent[3] == []
    && net.sent[1] == two.sent[1] && (1, 1) !in net.delivered
    && Idle(net.initiator, Secret(3), Some(Public(2)), 0, 1, 2) && net.responder == four.responder
  }

  lemma ToFive(four: Session, two: Session, shared: SharedSecret)
    requires AtTwo(two, shared) && AtFour(four, two)
    ensures Legal(four, Deliver(Initiator, 2, 0, Secret(3)))
    ensures AtFive(Step(four, Deliver(Initiator, 2, 0, Secret(3))), two, four)
  {
    assert Owner(1) == Initiator && Owner(2) == Responder;
    NewChain(four.initiator, Header(Public(2), 0, 0), Secret(3));
    DeliverStep(four, Initiator, 2, 0, Secret(3));
  }

  /** The initiator has written again. */
  predicate AtSix(net: Session, two: Session, four: Session) {
    && |two.sent| == 2
    && net.keys == [Secret(0), Secret(1), Secret(2), Secret(3)] && |net.sent| == 4 && |net.sent[3]| == 1
    && net.sent[3][0].Some? && net.sent[3][0].value.header == Header(Public(3), 2, 0)
    && net.sent[1] == two.sent[1] && (1, 1) !in net.delivered && net.responder == four.responder
  }

  lemma ToSix(five: Session, two: Session, four: Session)
    requires AtFive(five, two, four)
    ensures Legal(five, Send(Initiator, [])) && AtSix(Step(five, Send(Initiator, [])), two, four)
  {
    Padding.PadUnpad([]);
    assert Owner(2) == Responder && Owner(3) == Initiator;
  }

  /** And that has arrived too. */
  predicate AtSeven(net: Session, two: Session) {
    && |two.sent| == 2
    && net.keys == [Secret(0), Secret(1), Secret(2), Secret(3), Secret(4)] && |net.sent| == 5
    && net.sent[1] == two.sent[1] && (1, 1) !in net.delivered
  }

  lemma ToSeven(six: Session, two: Session, four: Session)
    requires AtSix(six, two, four) && AtFour(four, two)
    ensures Legal(six, Deliver(Responder, 3, 0, Secret(4)))
    ensures AtSeven(Step(six, Deliver(Responder, 3, 0, Secret(4))), two)
  {
    assert Owner(2) == Responder && Owner(3) == Initiator;
    NewChainOverOne(six.responder, Header(Public(3), 2, 0), Secret(4));
    DeliverStep(six, Responder, 3, 0, Secret(4));
  }

  lemma AfterFour(shared: SharedSecret)
    ensures LegalRun(Start(shared, Secret(0), Secret(1)), EXCHANGE[..4])
    ensures AtTwo(After(shared, 2), shared) && AtFour(After(shared, 4), After(shared, 2))
  {
    AfterTwo(shared);
    AfterNext(shared, 2);
    ToThree(After(shared, 2), shared);
    AfterNext(shared, 3);
    ToFour(After(shared, 3), After(shared, 2));
  }

  lemma AfterFive(shared: SharedSecret)
    ensures LegalRun(Start(shared, Secret(0), Secret(1)), EXCHANGE[..5])
    ensures AtFive(After(shared, 5), After(shared, 2), After(shared, 4))
  {
    AfterFour(shared);
    AfterNext(shared, 4);
    ToFive(After(shared, 4), After(shared, 2), shared);
  }

  lemma AfterSix(shared: SharedSecret)
    ensures LegalRun(Start(shared, Secret(0), Secret(1)), EXCHANGE[..6])
    ensures AtTwo(After(shared, 2), shared) && AtFour(After(shared, 4), After(shared, 2))
    ensures AtSix(After(shared, 6), After(shared, 2), After(shared, 4))
  {
    AfterFour(shared);
    AfterFive(shared);
    AfterNext(shared, 5);
    ToSix(After(shared, 5), After(shared, 2), After(shared, 4));
  }

  lemma AfterSeven(shared: SharedSecret)
    ensures LegalRun(Start(shared, Secret(0), Secret(1)), EXCHANGE)
    ensures AtTwo(After(shared, 2), shared) && AtSeven(After(shared, 7), After(shared, 2))
  {
    AfterSix(shared);
    AfterNext(shared, 6);
    ToSeven(After(shared, 6), After(shared, 2), After(shared, 4));
    assert EXCHANGE[..7] == EXCHANGE;
  }

  lemma AfterSevenSynced(shared: SharedSecret)
    ensures Synced(After(shared, 7))
  {
    AfterSeven(shared);
    assert EXCHANGE[..7] == EXCHANGE;
    StartSynced(shared, Secret(0), Secret(1));
    RunSynced(Start(shared, Secret(0), Secret(1)), EXCHANGE);
  }

  lemma DeliveredStays(net: Session, e: Event)
    requires |net.keys| == |net.sent| >= 2
    ensures net.delivered <= Step(net, e).delivered
  {
  }

  /** The first message was opened when it came. */
  lemma FirstDelivered(shared: SharedSecret)
    ensures (1, 0) in After(shared, 3).delivered
  {
    AfterTwo(shared);
    var two := After(shared, 2);
    StartSynced(shared, Secret(0), Secret(1));
    RunSynced(Start(shared, Secret(0), Secret(1)), EXCHANGE[..2]);
    AfterNext(shared, 2);
    ToThree(two, shared);
    FirstDelivery(two, Responder, 1, 0, Secret(2));
  }

  lemma StillDelivered(shared: SharedSecret)
    ensures (1, 0) in After(shared, 7).delivered
  {
    FirstDelivered(shared);
    for k := 3 to 7
      invariant (1, 0) in After(shared, k).delivered
    {
      AfterNext(shared, k);
      DeliveredStays(After(shared, k), EXCHANGE[k]);
    }
  }

  /** The parties are in step and the responder has left chain 1, whose first message it opened and whose second is
      still under way. */
  ghost predicate Waiting(net: Session) {
    && |net.keys| == |net.sent| >= 2 && Synced(net) && LeftBehind(net, Responder, 1)
    && net.Exists(1, 0) && net.Exists(1, 1) && (1, 0) in net.delivered && (1, 1) !in net.delivered
    && PublicOf(net.keys[1]) == Public(1) && net.sent[1][0].value.header.pn == net.sent[1][1].value.header.pn == 0
  }

  lemma NowWaiting(shared: SharedSecret)
    ensures LegalRun(Start(shared, Secret(0), Secret(1)), EXCHANGE)
    ensures Waiting(After(shared, 7))
  {
    AfterSeven(shared);
    AfterSevenSynced(shared);
    StillDelivered(shared);
    assert Owner(1) == Initiator && Owner(4) == Peer(Owner(3)) == Owner(2) == Responder;
  }

  /** What the responder gets by delivery of either message, and what becomes of its replies. */
  ghost predicate Broken(net: Session, n: nat, mine: seq<KeyUse.Event>, theirs: seq<KeyUse.Event>, reply: seq<byte>,
                         drawn: Secret)
  {
    && net.Exists(1, n)
    && var (s, r) := Received(net, Responder, 1, n, Secret(5));
    && (if n == 0 then r.Failure? else r == Success(net.sent[1][n].value.plaintext))
    && Divergence.InVain(KeyUse.Run(s, mine).s, KeyUse.Run(net.initiator, theirs).s, reply, drawn)
  }

  lemma WaitingBreaks(net: Session, n: nat, mine: seq<KeyUse.Event>, theirs: seq<KeyUse.Event>, reply: seq<byte>,
                      drawn: Secret)
    requires Waiting(net) && n < 2 && Divergence.Fresh(theirs, Public(1))
    ensures Broken(net, n, mine, theirs, reply, drawn)
  {
    var m := net.sent[1][n].value;
    OldMessage(net, Responder, 1, n);
    assert Owner(1) == Initiator;
    LeftBehindDelivery(net, Responder, 1, n, Secret(5));
    LeftBehindForeign(net, Responder, 1);
    Divergence.RepliesAreLost(net, Responder, m.header, m.ct, Secret(5), mine, theirs, reply, drawn);
  }

  /** Every message but one has been opened in order and nothing was lost, so the parties are in step. The late one
      opens when it comes, and the first one is refused when it comes again; but after either, whatever else the
      parties send and receive, every later reply of the responder is lost. */
  lemma LateMessageBreaksSession(shared: SharedSecret, n: nat, mine: seq<KeyUse.Event>, theirs: seq<KeyUse.Event>,
                                 reply: seq<byte>, drawn: Secret)
    requires n < 2 && Divergence.Fresh(theirs, Public(1))
    ensures LegalRun(Start(shared, Secret(0), Secret(1)), EXCHANGE) && Waiting(After(shared, 7))
    ensures Broken(After(shared, 7), n, mine, theirs, reply, drawn)
  {
    NowWaiting(shared);
    WaitingBreaks(After(shared, 7), n, mine, theirs, reply, drawn);
  }
}
