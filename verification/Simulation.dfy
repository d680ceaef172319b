/** The simulator's contact loop over real engine objects (core/src/dtn_sim.rs). */
module Simulation {
  import opened Bytes
  import opened Collections
  import opened Wrappers
  import opened Envelopes
  import opened Engine
  import opened Durable
  import opened Relay
  import opened Contact
  import opened CM = ContactMessages
  import Bloom
  import Mesh
  import Puzzle
  import RateLimiting
  import Schedule

  const MAX_CONTACT_ITERATIONS: nat := 1000

  /** A frame waiting in the window's queue. */
  datatype Queued = Queued(to: nat, from: nat, bytes: seq<byte>)

  function Queue(to: nat, from: nat, messages: seq<Outbound>): (queue: seq<Queued>)
    ensures |queue| == |messages|
  {
    if messages == [] then []
    else
      var last := messages[|messages| - 1];
      Queue(to, from, messages[..|messages| - 1]) + [Queued(to, from, CM.ToBytes(last.message))]
  }

  /** The harness assumes that its own frames parse: nothing it stores is too long for the length fields. */
  ghost predicate Portable(n: Node) {
    forall id | id in n.store.entries :: Mesh.Carries(Data(n.store.entries[id].envelope, 0))
  }

  lemma CarriesAnyHops(e: Envelope, f: Envelope, nonce: u64)
    requires f == e.(ttlHops := f.ttlHops) && Mesh.Carries(Data(e, 0))
    ensures Mesh.Carries(Data(f, nonce))
  {
    assert Front(f) == Front(e);
  }

  /** Whatever its size, a filter fits its length field. */
  lemma SummaryCarries(filter: Bloom.BloomFilter)
    requires filter.Valid()
    ensures CM.FromBytes(CM.ToBytes(Summary(filter))) == Success(Summary(filter))
  {
    CM.ParsePrint(Summary(filter));
  }

  lemma PushCarries(o: Oracles, n: Node, to: nat, theirs: Bloom.BloomFilter, m: Outbound)
    requires theirs.Valid() && Engine.Valid(n.store) && Portable(n) && m in Pushed(o, n, to, theirs)
    ensures m.message.Data? && Mesh.Carries(m.message) && CM.FromBytes(CM.ToBytes(m.message)) == Success(m.message)
  {
    PushedData(o, n, to, theirs, m);
    var e := n.store.entries[m.message.envelope.Id()].envelope;
    CarriesAnyHops(e, m.message.envelope, m.message.puzzleNonce);
    CM.ParsePrint(m.message);
  }

  lemma ReceivePortable(o: Oracles, n: Node, from: nat, m: Outbound, now: nat)
    requires m.message.Data? && Mesh.Carries(m.message) && Engine.Valid(n.store) && Portable(n)
    ensures Portable(ReceiveOne(o, n, from, m, now))
  {
    var e := m.message.envelope;
    Mesh.AcceptKeeps(n.store, e, now);
    CarriesSameLength(e, m.message.puzzleNonce);
  }

  lemma CarriesSameLength(e: Envelope, nonce: u64)
    ensures |Payload(Data(e, nonce))| == |Payload(Data(e, 0))|
  {
  }

  /** Answering a summary from a peer already greeted only pushes. */
  lemma AnswerHello(o: Oracles, n: Node, from: nat, filter: Bloom.BloomFilter, size: nat, now: nat)
    requires filter.Valid() && from in n.peers && n.peers[from].summarySent
    ensures OnMessage(o, n, from, Summary(filter), size, now) == (n, Pushed(o, n, from, filter))
  {
  }

  lemma TakePush(o: Oracles, n: Node, from: nat, m: Outbound, now: nat)
    requires m.message.Data? && n.peers.Keys == {from}
    ensures OnMessage(o, n, from, m.message, |CM.ToBytes(m.message)|, now) == (ReceiveOne(o, n, from, m, now), {})
  {
    DataQuiet(o, n, from, m.message.envelope, m.message.puzzleNonce, |CM.ToBytes(m.message)|, now);
  }

  /** The last of what is still to do moves to the end of what is done. */
  lemma Advance(todo: seq<Outbound>, done: seq<Outbound>, all: set<Outbound>)
    requires todo != [] && Enumerates(todo + done, all)
    ensures Enumerates(todo[..|todo| - 1] + (done + [todo[|todo| - 1]]), all) && todo[|todo| - 1] in all
  {
    var last, rest := todo[|todo| - 1], todo[..|todo| - 1];
    var before, after := todo + done, rest + (done + [last]);
    assert forall x :: x in after <==> x in before;
    forall i, j | 0 <= i < |after| && 0 <= j < |after| && after[i] == after[j]
      ensures i == j
    {
      var k := if i < |rest| then i else if i == |after| - 1 then |rest| else i + 1;
      var l := if j < |rest| then j else if j == |after| - 1 then |rest| else j + 1;
      assert before[k] == after[i] && before[l] == after[j];
    }
    assert last in before && last in Elements(before);
  }

  lemma QueueMore(to: nat, from: nat, sent: seq<Outbound>, i: nat)
    requires i < |sent|
    ensures Queue(to, from, sent[..i + 1])
            == Queue(to, from, sent[..i]) + [Queued(to, from, CM.ToBytes(sent[i].message))]
  {
    assert sent[..i + 1][..i] == sent[..i];
  }

  /** What an outbound list adds to the queue, all of it for one node. */
  method Enqueue(queue: seq<Queued>, from: nat, to: nat, outbound: seq<Wire>, ghost sent: seq<Outbound>)
    returns (longer: seq<Queued>)
    requires outbound == Print(sent) && forall m | m in sent :: m.to == to
    ensures longer == queue + Queue(to, from, sent)
  {
    longer := queue;
    for i := 0 to |outbound|
      invariant longer == queue + Queue(to, from, sent[..i])
    {
      assert sent[i] in sent;
      QueueMore(to, from, sent, i);
      longer := longer + [Queued(outbound[i].to, from, outbound[i].bytes)];
    }
    assert sent[..|outbound|] == sent;
  }

  ghost predicate Apart(x: RelayEngine, y: RelayEngine) {
    x != y && x.store != y.store && x.store.memory != y.store.memory
  }

  lemma NoPuzzle(o: Oracles, id: EnvelopeId)
    ensures Puzzle.Solvable(o.digest, id, 0)
  {
    assert Puzzle.Verifies(o.digest, id, 0, 0);
  }

  /** What handling one frame of a window does: a summary is answered by pushes, a pushed copy is taken in silence. */
  ghost predicate Handled(o: Oracles, n: Node, from: nat, m: ContactMessage, now: nat, n': Node, sent: seq<Outbound>)
    requires m.Valid()
  {
    match m
    case Summary(filter) => n' == n && Enumerates(sent, Pushed(o, n, from, filter))
    case Data(_, _) => n' == ReceiveOne(o, n, from, Outbound(from, m), now) && sent == []
  }

  method Deliver(o: Oracles, engine: RelayEngine, from: nat, bytes: seq<byte>, now: nat, ghost m: ContactMessage)
    returns (outbound: seq<Wire>, ghost sent: seq<Outbound>)
    requires engine.Valid() && engine.difficulty == 0
    requires engine.peers.Keys == {from} && engine.peers[from].summarySent
    requires m.Valid() && (m.Data? ==> Mesh.Carries(m)) && bytes == CM.ToBytes(m)
    modifies engine, engine.store, engine.store.memory
    ensures engine.Valid() && Handled(o, old(engine.View()), from, m, now, engine.View(), sent)
    ensures outbound == Print(sent)
  {
    forall id { NoPuzzle(o, id); }
    match m {
      case Summary(filter) =>
        SummaryCarries(filter);
        AnswerHello(o, engine.View(), from, filter, |bytes|, now);
      case Data(_, _) =>
        CM.ParsePrint(m);
        TakePush(o, engine.View(), from, Outbound(from, m), now);
    }
    var result;
    result, sent := engine.OnFrame(o, from, bytes, now);
    if m.Data? { EnumerateSize(sent, {}); }
    outbound := result.value;
  }

  /** The two nodes as a window finds them. */
  datatype Pair = Pair(x: Node, y: Node, xId: nat, yId: nat, now: nat)

  /** How far a window has come: the pushes to the second node once complete, and of the pushes now being
      delivered those still to do and those done. */
  datatype Progress = Progress(stage: nat, toY: seq<Outbound>, todo: seq<Outbound>, done: seq<Outbound>)

  ghost function XFilter(o: Oracles, w: Pair): Bloom.BloomFilter {
    FilterFor(o, w.x)
  }

  ghost function YFilter(o: Oracles, w: Pair): Bloom.BloomFilter {
    FilterFor(o, w.y)
  }

  ghost predicate Idles(o: Oracles, w: Pair) {
    Idle(w.x) && Idle(w.y) && XFilter(o, w).Valid() && YFilter(o, w).Valid()
  }

  /** The second node once it has taken all that was pushed to it. */
  ghost function FilledBy(o: Oracles, w: Pair, toY: seq<Outbound>): Node
    requires AllData(toY)
  {
    Receive(o, Connect(w.y, w.xId), w.xId, toY, w.now)
  }

  ghost function Greeting(o: Oracles, w: Pair): Queued
    requires Idles(o, w)
  {
    Queued(w.yId, w.xId, CM.ToBytes(Summary(XFilter(o, w))))
  }

  /** The first node's pushes are being delivered to the second. */
  ghost predicate Forth(o: Oracles, w: Pair, todo: seq<Outbound>, done: seq<Outbound>, queue: seq<Queued>, x: Node,
                        y: Node, handled: nat)
    requires Idles(o, w)
  {
    && AllData(todo) && AllData(done)
    && queue == [Greeting(o, w)] + Queue(w.yId, w.xId, todo) && handled == 1 + |done|
    && Enumerates(todo + done, Pushed(o, w.x, w.yId, YFilter(o, w)))
    && x == Connect(w.x, w.yId) && y == FilledBy(o, w, done)
  }

  /** The second node's pushes are being delivered to the first. */
  ghost predicate Back(o: Oracles, w: Pair, toY: seq<Outbound>, todo: seq<Outbound>, done: seq<Outbound>,
                       queue: seq<Queued>,
                       x: Node, y: Node, handled: nat)
    requires Idles(o, w)
  {
    && AllData(toY) && AllData(todo) && AllData(done)
    && queue == Queue(w.xId, w.yId, todo) && handled == 2 + |toY| + |done|
    && Enumerates(toY, Pushed(o, w.x, w.yId, YFilter(o, w)))
    && Enumerates(todo + done, Pushed(o, FilledBy(o, w, toY), w.xId, XFilter(o, w)))
    && y == FilledBy(o, w, toY) && x == Receive(o, Connect(w.x, w.yId), w.yId, done, w.now)
  }

  /** Where a window stands. Before anything is handled both greetings wait; then the first node's pushes are
      delivered to the second, last in first out, with the first node's greeting at the bottom of the queue; then
      the second node's pushes are delivered to the first. */
  ghost predicate Stage(o: Oracles, w: Pair, p: Progress, queue: seq<Queued>, x: Node, y: Node, handled: nat)
    requires Idles(o, w)
  {
    match p.stage
    case 0 =>
      && queue == [Greeting(o, w), Queued(w.xId, w.yId, CM.ToBytes(Summary(YFilter(o, w))))] && handled == 0
      && x == Connect(w.x, w.yId) && y == Connect(w.y, w.xId)
    case 1 => Forth(o, w, p.todo, p.done, queue, x, y, handled)
    case _ => Back(o, w, p.toY, p.todo, p.done, queue, x, y, handled)
  }

  ghost function NextMessage(o: Oracles, w: Pair, p: Progress): ContactMessage {
    if p.stage == 0 then Summary(YFilter(o, w))
    else if p.todo != [] then p.todo[|p.todo| - 1].message
    else Summary(XFilter(o, w))
  }

  /** How the window stands after the frame on top of its queue was handled, with these messages sent. */
  ghost function Further(p: Progress, sent: seq<Outbound>): Progress {
    if p.stage == 0 then Progress(1, p.toY, sent, [])
    else if p.todo != [] then p.(todo := p.todo[..|p.todo| - 1], done := p.done + [p.todo[|p.todo| - 1]])
    else Progress(2, p.done, sent, [])
  }

  lemma {:induction false} ReceiveAllPortable(o: Oracles, n: Node, from: nat, messages: seq<Outbound>, now: nat)
    requires AllData(messages) && (forall m | m in messages :: Mesh.Carries(m.message))
    requires Engine.Valid(n.store) && n.peers.Keys == {from} && n.peers[from].summarySent && Portable(n)
    ensures Portable(Receive(o, n, from, messages, now))
    decreases |messages|
  {
    if messages == [] {
    } else {
      var before, last := messages[..|messages| - 1], messages[|messages| - 1];
      assert last in messages;
      ReceiveAllPortable(o, n, from, before, now);
      ReceiveGrows(o, n, from, before, now);
      ReceivePortable(o, Receive(o, n, from, before, now), from, last, now);
    }
  }

  lemma PushesCarry(o: Oracles, n: Node, to: nat, theirs: Bloom.BloomFilter, messages: seq<Outbound>)
    requires theirs.Valid() && Engine.Valid(n.store) && Portable(n)
    requires forall m | m in messages :: m in Pushed(o, n, to, theirs)
    ensures forall m | m in messages :: m.to == to && m.message.Data? && Mesh.Carries(m.message)
  {
    forall m | m in messages
      ensures m.to == to && m.message.Data? && Mesh.Carries(m.message)
    {
      PushCarries(o, n, to, theirs, m);
      PushedData(o, n, to, theirs, m);
    }
  }

  /** What the second node holds once filled can still be sent on. */
  lemma FilledPortable(o: Oracles, w: Pair, toY: seq<Outbound>)
    requires Idles(o, w) && Portable(w.x) && Portable(w.y) && AllData(toY)
    requires Enumerates(toY, Pushed(o, w.x, w.yId, YFilter(o, w)))
    ensures Engine.Valid(FilledBy(o, w, toY).store) && Portable(FilledBy(o, w, toY))
  {
    ConnectIdle(w.y, w.xId);
    assert forall m :: m in toY <==> m in Elements(toY);
    PushesCarry(o, w.x, w.yId, YFilter(o, w), toY);
    ReceiveAllPortable(o, Connect(w.y, w.xId), w.xId, toY, w.now);
    ReceiveGrows(o, Connect(w.y, w.xId), w.xId, toY, w.now);
  }

  /** A node that has been greeted by one peer, and has greeted it. */
  ghost predicate Greeted(n: Node, peer: nat) {
    Engine.Valid(n.store) && n.difficulty == 0 && n.peers.Keys == {peer} && n.peers[peer].summarySent
  }

  lemma StageGreeted(o: Oracles, w: Pair, p: Progress, queue: seq<Queued>, x: Node, y: Node, handled: nat)
    requires Idles(o, w) && Stage(o, w, p, queue, x, y, handled)
    ensures Greeted(x, w.yId) && Greeted(y, w.xId)
  {
    ConnectIdle(w.x, w.yId);
    ConnectIdle(w.y, w.xId);
    if p.stage == 1 {
      ReceiveGrows(o, Connect(w.y, w.xId), w.xId, p.done, w.now);
    } else if p.stage >= 2 {
      ReceiveGrows(o, Connect(w.x, w.yId), w.yId, p.done, w.now);
      ReceiveGrows(o, Connect(w.y, w.xId), w.xId, p.toY, w.now);
    }
  }

  /** What is on top of the queue. */
  lemma StageNext(o: Oracles, w: Pair, p: Progress, queue: seq<Queued>, x: Node, y: Node, handled: nat)
    requires Idles(o, w) && Stage(o, w, p, queue, x, y, handled) && queue != []
    ensures var next := queue[|queue| - 1];
            && next.bytes == CM.ToBytes(NextMessage(o, w, p))
            && next.to == (if p.stage == 1 then w.yId else w.xId)
            && next.from == (if p.stage == 1 then w.xId else w.yId)
            && (p.stage >= 2 ==> p.todo != [])
  {
    if p.stage == 1 {
      ForthNext(o, w, p.todo, p.done, queue, x, y, handled);
    } else if p.stage >= 2 {
      BackNext(o, w, p.toY, p.todo, p.done, queue, x, y, handled);
    }
  }

  lemma ForthNext(o: Oracles, w: Pair, todo: seq<Outbound>, done: seq<Outbound>, queue: seq<Queued>, x: Node, y: Node,
                  handled: nat)
    requires Idles(o, w) && Forth(o, w, todo, done, queue, x, y, handled)
    ensures queue != []
    ensures queue[|queue| - 1]
         == if todo != [] then Queued(w.yId, w.xId, CM.ToBytes(todo[|todo| - 1].message)) else Greeting(o, w)
  {
    if todo != [] { QueueTop([Greeting(o, w)], w.yId, w.xId, todo); }
  }

  lemma BackNext(o: Oracles, w: Pair, toY: seq<Outbound>, todo: seq<Outbound>, done: seq<Outbound>, queue: seq<Queued>,
                 x: Node, y: Node, handled: nat)
    requires Idles(o, w) && Back(o, w, toY, todo, done, queue, x, y, handled) && queue != []
    ensures todo != [] && queue[|queue| - 1] == Queued(w.xId, w.yId, CM.ToBytes(todo[|todo| - 1].message))
  {
    QueueTop([], w.xId, w.yId, todo);
    assert [] + Queue(w.xId, w.yId, todo) == Queue(w.xId, w.yId, todo);
  }

  lemma QueueTop(under: seq<Queued>, to: nat, from: nat, todo: seq<Outbound>)
    requires todo != []
    ensures var queue := under + Queue(to, from, todo);
            queue[|queue| - 1] == Queued(to, from, CM.ToBytes(todo[|todo| - 1].message))
  {
  }

  lemma TodoPushed(todo: seq<Outbound>, done: seq<Outbound>, all: set<Outbound>)
    requires Enumerates(todo + done, all)
    ensures forall m | m in todo :: m in all
    ensures |todo| + |done| == |all|
  {
    forall m | m in todo
      ensures m in all
    {
      assert m in todo + done && m in Elements(todo + done);
    }
    EnumerateSize(todo + done, all);
  }

  lemma TodoCarries(o: Oracles, n: Node, to: nat, theirs: Bloom.BloomFilter, todo: seq<Outbound>, done: seq<Outbound>)
    requires theirs.Valid() && Engine.Valid(n.store) && Portable(n)
    requires todo != [] && Enumerates(todo + done, Pushed(o, n, to, theirs))
    ensures var m := todo[|todo| - 1].message; m.Data? && Mesh.Carries(m)
  {
    TodoPushed(todo, done, Pushed(o, n, to, theirs));
    assert todo[|todo| - 1] in todo;
    PushesCarry(o, n, to, theirs, todo);
  }

  /** It will parse. */
  lemma StageParses(o: Oracles, w: Pair, p: Progress, queue: seq<Queued>, x: Node, y: Node, handled: nat)
    requires Idles(o, w) && Portable(w.x) && Portable(w.y) && Stage(o, w, p, queue, x, y, handled)
    ensures var m := NextMessage(o, w, p); m.Valid() && (m.Data? ==> Mesh.Carries(m))
  {
    if p.stage == 1 && p.todo != [] {
      TodoCarries(o, w.x, w.yId, YFilter(o, w), p.todo, p.done);
    } else if p.stage >= 2 && p.todo != [] {
      FilledPortable(o, w, p.toY);
      TodoCarries(o, FilledBy(o, w, p.toY), w.xId, XFilter(o, w), p.todo, p.done);
    }
  }

  /** No more frames are handled than two greetings and one for each envelope either side held. */
  lemma StageCounts(o: Oracles, w: Pair, p: Progress, queue: seq<Queued>, x: Node, y: Node, handled: nat)
    requires Idles(o, w) && Stage(o, w, p, queue, x, y, handled) && queue != []
    ensures handled + 1 <= 2 + |w.x.store.entries| + |w.y.store.entries|
  {
    if p.stage == 1 {
      FewPushed(o, w.x, w.yId, YFilter(o, w), p.todo + p.done);
    } else if p.stage >= 2 {
      FewPushed(o, w.x, w.yId, YFilter(o, w), p.toY);
      Filled(o, w.x, w.y, w.xId, w.yId, w.now, p.toY);
      FewPushedBack(o, w.x, w.y, FilledBy(o, w, p.toY), w.xId, IdsOf(p.toY), p.todo + p.done);
      assert p.todo != [];
    }
  }

  lemma BackEnds(o: Oracles, w: Pair, toY: seq<Outbound>, done: seq<Outbound>, x: Node, y: Node, handled: nat)
    requires Idles(o, w) && Back(o, w, toY, [], done, [], x, y, handled)
    ensures Contacted(o, w.x, w.y, w.xId, w.yId, w.now, toY, done, Lose(x, w.yId), Lose(y, w.xId))
  {
    assert [] + done == done;
  }

  /** When nothing is queued the whole exchange has happened. */
  lemma StageEnds(o: Oracles, w: Pair, p: Progress, x: Node, y: Node, handled: nat)
    requires Idles(o, w) && Stage(o, w, p, [], x, y, handled)
    ensures Contacted(o, w.x, w.y, w.xId, w.yId, w.now, p.toY, p.done, Lose(x, w.yId), Lose(y, w.xId))
  {
    assert p.stage >= 2 && p.todo == [];
    BackEnds(o, w, p.toY, p.done, x, y, handled);
  }

  lemma GreetingAnswered(o: Oracles, n: Node, from: nat, filter: Bloom.BloomFilter, sent: seq<Outbound>)
    requires filter.Valid() && Engine.Valid(n.store) && Enumerates(sent, Pushed(o, n, from, filter))
    ensures AllData(sent) && forall m | m in sent :: m.to == from
  {
    forall m | m in sent
      ensures m.message.Data? && m.to == from
    {
      assert m in Elements(sent);
      PushedData(o, n, from, filter, m);
    }
  }

  lemma OpeningMoves(o: Oracles, w: Pair, queue: seq<Queued>, x: Node, y: Node, sent: seq<Outbound>)
    requires Idles(o, w) && queue == [Greeting(o, w)] && x == Connect(w.x, w.yId) && y == Connect(w.y, w.xId)
    requires Enumerates(sent, Pushed(o, x, w.yId, YFilter(o, w)))
    ensures AllData(sent) && forall m | m in sent :: m.to == w.yId
    ensures Forth(o, w, sent, [], queue + Queue(w.yId, w.xId, sent), x, y, 1)
  {
    ConnectIdle(w.x, w.yId);
    GreetingAnswered(o, x, w.yId, YFilter(o, w), sent);
    assert sent + [] == sent;
  }

  lemma TurnMoves(o: Oracles, w: Pair, done: seq<Outbound>, queue: seq<Queued>, x: Node, y: Node, handled: nat,
                  sent: seq<Outbound>)
    requires Idles(o, w) && Forth(o, w, [], done, queue, x, y, handled) && Greeted(y, w.xId)
    requires Enumerates(sent, Pushed(o, y, w.xId, XFilter(o, w)))
    ensures AllData(sent) && forall m | m in sent :: m.to == w.xId
    ensures Back(o, w, done, sent, [], Queue(w.xId, w.yId, sent), x, y, handled + 1) && |queue| == 1
  {
    GreetingAnswered(o, y, w.xId, XFilter(o, w), sent);
    assert [] + done == done && sent + [] == sent;
  }

  lemma ReceiveNext(o: Oracles, n: Node, from: nat, done: seq<Outbound>, last: Outbound, now: nat)
    requires AllData(done) && last.message.Data?
    ensures AllData(done + [last])
    ensures Receive(o, n, from, done + [last], now) == ReceiveOne(o, Receive(o, n, from, done, now), from, last, now)
  {
    assert (done + [last])[..|done|] == done;
  }

  lemma QueuePop(head: Queued, to: nat, from: nat, todo: seq<Outbound>)
    requires todo != []
    ensures ([head] + Queue(to, from, todo))[..|todo|] == [head] + Queue(to, from, todo[..|todo| - 1])
  {
  }

  lemma ForthMoves(o: Oracles, w: Pair, todo: seq<Outbound>, done: seq<Outbound>, queue: seq<Queued>, x: Node, y: Node,
                   handled: nat)
    requires Idles(o, w) && Forth(o, w, todo, done, queue, x, y, handled) && todo != []
    ensures var last := todo[|todo| - 1];
            last.message.Data?
            && Forth(o, w, todo[..|todo| - 1], done + [last], queue[..|queue| - 1], x,
                     ReceiveOne(o, y, w.xId, last, w.now), handled + 1)
  {
    var last := todo[|todo| - 1];
    assert last in todo;
    QueuePop(Greeting(o, w), w.yId, w.xId, todo);
    Advance(todo, done, Pushed(o, w.x, w.yId, YFilter(o, w)));
    ReceiveNext(o, Connect(w.y, w.xId), w.xId, done, last, w.now);
  }

  lemma BackMoves(o: Oracles, w: Pair, toY: seq<Outbound>, todo: seq<Outbound>, done: seq<Outbound>, queue: seq<Queued>,
                  x: Node, y: Node, handled: nat)
    requires Idles(o, w) && Back(o, w, toY, todo, done, queue, x, y, handled) && todo != []
    ensures var last := todo[|todo| - 1];
            last.message.Data?
            && Back(o, w, toY, todo[..|todo| - 1], done + [last], queue[..|queue| - 1],
                    ReceiveOne(o, x, w.yId, last, w.now), y, handled + 1)
  {
    var last := todo[|todo| - 1];
    assert last in todo;
    Advance(todo, done, Pushed(o, FilledBy(o, w, toY), w.xId, XFilter(o, w)));
    ReceiveNext(o, Connect(w.x, w.yId), w.yId, done, last, w.now);
  }

  /** Handling a greeting from the top goes to the next stage. */
  lemma StageAnswers(o: Oracles, w: Pair, p: Progress, queue: seq<Queued>, x: Node, y: Node, handled: nat,
                     sent: seq<Outbound>)
    requires Idles(o, w) && Stage(o, w, p, queue, x, y, handled) && queue != []
    requires p.stage == 0 || (p.stage == 1 && p.todo == [])
    requires if p.stage == 1 then Enumerates(sent, Pushed(o, y, w.xId, XFilter(o, w)))
             else Enumerates(sent, Pushed(o, x, w.yId, YFilter(o, w)))
    ensures forall m | m in sent :: m.to == if p.stage == 1 then w.xId else w.yId
    ensures Stage(o, w, Further(p, sent),
                  queue[..|queue| - 1] + (if p.stage == 1 then Queue(w.xId, w.yId, sent)
                                          else Queue(w.yId, w.xId, sent)), x, y, handled + 1)
  {
    if p.stage == 0 {
      StageFirst(o, w, p, queue, x, y, handled, sent);
    } else {
      StageTurn(o, w, p, queue, x, y, handled, sent);
    }
  }

  lemma StageFirst(o: Oracles, w: Pair, p: Progress, queue: seq<Queued>, x: Node, y: Node, handled: nat,
                   sent: seq<Outbound>)
    requires Idles(o, w) && Stage(o, w, p, queue, x, y, handled) && queue != [] && p.stage == 0
    requires Enumerates(sent, Pushed(o, x, w.yId, YFilter(o, w)))
    ensures forall m | m in sent :: m.to == w.yId
    ensures Stage(o, w, Further(p, sent), queue[..|queue| - 1] + Queue(w.yId, w.xId, sent), x, y, handled + 1)
  {
    assert queue[..|queue| - 1] == [Greeting(o, w)];
    OpeningMoves(o, w, queue[..|queue| - 1], x, y, sent);
  }

  lemma StageTurn(o: Oracles, w: Pair, p: Progress, queue: seq<Queued>, x: Node, y: Node, handled: nat,
                  sent: seq<Outbound>)
    requires Idles(o, w) && Stage(o, w, p, queue, x, y, handled) && queue != [] && p.stage == 1 && p.todo == []
    requires Enumerates(sent, Pushed(o, y, w.xId, XFilter(o, w)))
    ensures forall m | m in sent :: m.to == w.xId
    ensures Stage(o, w, Further(p, sent), queue[..|queue| - 1] + Queue(w.xId, w.yId, sent), x, y, handled + 1)
  {
    StageGreeted(o, w, p, queue, x, y, handled);
    TurnMoves(o, w, p.done, queue, x, y, handled, sent);
    NothingUnder(queue, Queue(w.xId, w.yId, sent));
  }

  lemma NothingUnder(queue: seq<Queued>, more: seq<Queued>)
    requires |queue| == 1
    ensures queue[..|queue| - 1] + more == more
  {
  }

  /** Handling a pushed copy from the top shortens the queue. */
  lemma StageTakes(o: Oracles, w: Pair, p: Progress, queue: seq<Queued>, x: Node, y: Node, handled: nat, n: Node)
    requires Idles(o, w) && Stage(o, w, p, queue, x, y, handled) && 1 <= p.stage <= 2 && p.todo != []
    requires var last := p.todo[|p.todo| - 1];
             && last.message.Data?
             && n == ReceiveOne(o, if p.stage == 1 then y else x, if p.stage == 1 then w.xId else w.yId, last, w.now)
    ensures Stage(o, w, Further(p, []), queue[..|queue| - 1], if p.stage == 1 then x else n,
                  if p.stage == 1 then n else y, handled + 1)
  {
    if p.stage == 1 {
      ForthMoves(o, w, p.todo, p.done, queue, x, y, handled);
    } else {
      BackMoves(o, w, p.toY, p.todo, p.done, queue, x, y, handled);
    }
  }

  /** Handling the frame on top moves the window on, and shortens the queue or goes to the next stage. */
  lemma StageMoves(o: Oracles, w: Pair, p: Progress, queue: seq<Queued>, x: Node, y: Node, handled: nat, n: Node,
                   sent: seq<Outbound>)
    requires Idles(o, w) && Stage(o, w, p, queue, x, y, handled) && queue != [] && p.stage <= 2
    requires var m := NextMessage(o, w, p);
             && m.Valid()
             && Handled(o, if p.stage == 1 then y else x, if p.stage == 1 then w.xId else w.yId, m, w.now, n, sent)
    ensures var next := queue[|queue| - 1];
            && (forall m | m in sent :: m.to == next.from)
            && Stage(o, w, Further(p, sent), queue[..|queue| - 1] + Queue(next.from, next.to, sent),
                     if p.stage == 1 then x else n, if p.stage == 1 then n else y, handled + 1)
    ensures p.stage < Further(p, sent).stage <= 2 || (Further(p, sent).stage == p.stage && sent == [])
  {
    StageNext(o, w, p, queue, x, y, handled);
    if p.stage == 0 || p.todo == [] {
      StageAnswers(o, w, p, queue, x, y, handled, sent);
    } else {
      assert p.todo[|p.todo| - 1] in p.todo;
      StageTakes(o, w, p, queue, x, y, handled, n);
      assert queue[..|queue| - 1] + [] == queue[..|queue| - 1];
    }
  }

  lemma StageOpens(o: Oracles, w: Pair)
    requires Idle(w.x) && Idle(w.y)
    ensures Idles(o, w)
    ensures Hello(o, Connect(w.x, w.yId)) == Summary(XFilter(o, w))
    ensures Hello(o, Connect(w.y, w.xId)) == Summary(YFilter(o, w))
  {
    Mesh.HelloValid(o, w.x);
    Mesh.HelloValid(o, w.y);
  }

  /** The frame on top goes to one engine; the other is untouched. */
  method DeliverTop(o: Oracles, x: RelayEngine, y: RelayEngine, toY: bool, from: nat, bytes: seq<byte>, now: nat,
                    ghost m: ContactMessage)
    returns (outbound: seq<Wire>, ghost sent: seq<Outbound>)
    requires x.Valid() && y.Valid() && Apart(x, y)
    requires Greeted(if toY then y.View() else x.View(), from)
    requires m.Valid() && (m.Data? ==> Mesh.Carries(m)) && bytes == CM.ToBytes(m)
    modifies x, x.store, x.store.memory, y, y.store, y.store.memory
    ensures x.Valid() && y.Valid() && outbound == Print(sent)
    ensures toY ==> x.View() == old(x.View()) && Handled(o, old(y.View()), from, m, now, y.View(), sent)
    ensures !toY ==> y.View() == old(y.View()) && Handled(o, old(x.View()), from, m, now, x.View(), sent)
  {
    if toY {
      outbound, sent := Deliver(o, y, from, bytes, now, m);
    } else {
      outbound, sent := Deliver(o, x, from, bytes, now, m);
    }
  }

  /** One turn of the loop. */
  method HandleTop(o: Oracles, x: RelayEngine, y: RelayEngine, yId: nat, queue: seq<Queued>, now: nat,
                   ghost w: Pair, ghost p: Progress, ghost handled: nat)
    returns (longer: seq<Queued>, ghost further: Progress)
    requires x.Valid() && y.Valid() && Apart(x, y) && w.xId != w.yId && w.yId == yId && w.now == now
    requires Idles(o, w) && Portable(w.x) && Portable(w.y) && p.stage <= 2
    requires queue != [] && Stage(o, w, p, queue, x.View(), y.View(), handled)
    modifies x, x.store, x.store.memory, y, y.store, y.store.memory
    ensures x.Valid() && y.Valid() && further.stage <= 2
    ensures Stage(o, w, further, longer, x.View(), y.View(), handled + 1)
    ensures p.stage < further.stage || (further.stage == p.stage && |longer| < |queue|)
  {
    StageGreeted(o, w, p, queue, x.View(), y.View(), handled);
    StageNext(o, w, p, queue, x.View(), y.View(), handled);
    StageParses(o, w, p, queue, x.View(), y.View(), handled);
    ghost var x0, y0 := x.View(), y.View();
    var next := queue[|queue| - 1];
    var outbound;
    ghost var sent;
    outbound, sent := DeliverTop(o, x, y, next.to == yId, next.from, next.bytes, now, NextMessage(o, w, p));
    StageMoves(o, w, p, queue, x0, y0, handled, if p.stage == 1 then y.View() else x.View(), sent);
    longer := Enqueue(queue[..|queue| - 1], next.to, next.from, outbound, sent);
    further := Further(p, sent);
  }

  /** Both nodes greet each other. */
  method OpenWindow(o: Oracles, x: RelayEngine, y: RelayEngine, xId: nat, yId: nat, ghost w: Pair)
    returns (queue: seq<Queued>)
    requires x.Valid() && y.Valid() && Apart(x, y)
    requires w.x == x.View() && w.y == y.View() && w.xId == xId && w.yId == yId && Idle(w.x) && Idle(w.y)
    modifies x`peers, y`peers
    ensures x.Valid() && y.Valid() && Idles(o, w)
    ensures Stage(o, w, Progress(0, [], [], []), queue, x.View(), y.View(), 0)
  {
    StageOpens(o, w);
    var xHello := x.OnPeerConnected(o, yId);
    var yHello := y.OnPeerConnected(o, xId);
    queue := [Queued(yId, xId, xHello), Queued(xId, yId, yHello)];
  }

  /** One contact window. It either runs to the end, exchanging what `Contacted` says, or trips the iteration
      guard, which takes more than 998 envelopes in the two stores together. */
  method Window(o: Oracles, x: RelayEngine, y: RelayEngine, xId: nat, yId: nat, now: nat)
    returns (finished: bool, ghost toY: seq<Outbound>, ghost toX: seq<Outbound>)
    requires x.Valid() && y.Valid() && Apart(x, y) && xId != yId
    requires Idle(x.View()) && Idle(y.View()) && Portable(x.View()) && Portable(y.View())
    modifies x, x.store, x.store.memory, y, y.store, y.store.memory
    ensures x.Valid() && y.Valid()
    ensures finished ==> Contacted(o, old(x.View()), old(y.View()), xId, yId, now, toY, toX, x.View(), y.View())
    ensures !finished ==> |old(x.store.memory.entries)| + |old(y.store.memory.entries)| > 998
  {
    ghost var w := Pair(x.View(), y.View(), xId, yId, now);
    var queue := OpenWindow(o, x, y, xId, yId, w);
    var iterations := 0;
    ghost var p := Progress(0, [], [], []);
    while queue != []
      invariant x.Valid() && y.Valid() && p.stage <= 2
      invariant Stage(o, w, p, queue, x.View(), y.View(), iterations)
      decreases 2 - p.stage, |queue|
    {
      StageCounts(o, w, p, queue, x.View(), y.View(), iterations);
      iterations := iterations + 1;
      if iterations > MAX_CONTACT_ITERATIONS { return false, [], []; }
      queue, p := HandleTop(o, x, y, yId, queue, now, w, p, iterations - 1);
    }
    StageEnds(o, w, p, x.View(), y.View(), iterations);
    x.OnPeerLost(yId);
    y.OnPeerLost(xId);
    finished, toY, toX := true, p.toY, p.done;
  }

  /** After a window all that is stored can still be sent. */
  lemma ContactPortable(o: Oracles, w: Pair, toY: seq<Outbound>, toX: seq<Outbound>, x: Node, y: Node)
    requires Idle(w.x) && Idle(w.y) && Portable(w.x) && Portable(w.y)
    requires Contacted(o, w.x, w.y, w.xId, w.yId, w.now, toY, toX, x, y)
    ensures Portable(x) && Portable(y)
  {
    var filled := FilledBy(o, w, toY);
    FilledPortable(o, w, toY);
    assert forall m :: m in toX <==> m in Elements(toX);
    PushesCarry(o, filled, w.xId, XFilter(o, w), toX);
    ConnectIdle(w.x, w.yId);
    ReceiveAllPortable(o, Connect(w.x, w.yId), w.yId, toX, w.now);
  }

  class Simulation {
    const engines: seq<RelayEngine>

    ghost function Repr(): set<object> {
      (set i | 0 <= i < |engines| :: engines[i] as object)
      + (set i | 0 <= i < |engines| :: engines[i].store as object)
      + (set i | 0 <= i < |engines| :: engines[i].store.memory as object)
    }

    ghost function World(): (world: Schedule.World)
      reads Repr()
      ensures |world| == |engines| && forall i | 0 <= i < |engines| :: world[i] == engines[i].View()
    {
      seq(|engines|, i requires 0 <= i < |engines| reads Repr() => engines[i].View())
    }

    ghost predicate Separate() {
      forall i, j | 0 <= i < |engines| && 0 <= j < |engines| && i != j :: Apart(engines[i], engines[j])
    }

    ghost predicate Valid()
      reads Repr()
    {
      && Separate()
      && (forall i | 0 <= i < |engines| :: engines[i].Valid())
      && Schedule.AllIdle(World())
    }

    lemma OthersApart(a: nat, b: nat)
      requires Separate() && a < |engines| && b < |engines|
      ensures forall k | 0 <= k < |engines| && k != a && k != b ::
              Parts(engines[k]) !! Parts(engines[a]) + Parts(engines[b])
    {
      forall k | 0 <= k < |engines| && k != a && k != b
        ensures Parts(engines[k]) !! Parts(engines[a]) + Parts(engines[b])
      {
        assert Apart(engines[k], engines[a]) && Apart(engines[k], engines[b]);
      }
    }

    method WindowAt(o: Oracles, a: nat, b: nat, now: nat)
      returns (finished: bool, ghost toY: seq<Outbound>, ghost toX: seq<Outbound>)
      requires Separate() && a < |engines| && b < |engines| && a != b
      requires engines[a].Valid() && engines[b].Valid()
      requires Idle(engines[a].View()) && Idle(engines[b].View())
      requires Portable(engines[a].View()) && Portable(engines[b].View())
      modifies Parts(engines[a]), Parts(engines[b])
      ensures engines[a].Valid() && engines[b].Valid()
      ensures finished ==> Contacted(o, old(engines[a].View()), old(engines[b].View()), a, b, now, toY, toX,
                                     engines[a].View(), engines[b].View())
      ensures !finished ==>
              |old(engines[a].store.memory.entries)|
                  + |old(engines[b].store.memory.entries)| > 998
    {
      assert Apart(engines[a], engines[b]);
      finished, toY, toX := Window(o, engines[a], engines[b], a, b, now);
    }

    /** Every node starts with room for a thousand envelopes, no contacts, no puzzle and the default limits. */
    constructor (nodeCount: nat)
      ensures Valid() && AllPortable(World()) && |engines| == nodeCount && fresh(Repr())
      ensures forall i | 0 <= i < nodeCount ::
                World()[i] == Node(Empty(1000), map[], 0, RateLimiting.Config(120, 2_000_000, 60))
    {
      var nodes := StartEngines(nodeCount);
      engines := nodes;
      new;
      StartedWorld();
    }

    lemma StartedWorld()
      requires Separate() && forall i | 0 <= i < |engines| :: StartedEngine(engines[i])
      ensures Valid() && AllPortable(World())
      ensures forall i | 0 <= i < |engines| ::
                World()[i] == Node(Empty(1000), map[], 0, RateLimiting.Config(120, 2_000_000, 60))
    {
      assert forall i | 0 <= i < |engines| :: StartedEngine(engines[i]) && World()[i] == engines[i].View();
    }

    method ComposeAt(o: Oracles, at: nat, e: Envelope, now: nat)
      requires Valid() && at < |engines|
      modifies Parts(engines[at])
      ensures Valid()
      ensures old(AllPortable(World())) && Mesh.Carries(Data(e, 0)) ==> AllPortable(World())
      ensures World() == old(World())[at := Compose(o, old(World())[at], e, now).0]
    {
      ghost var before := World();
      assert Idle(before[at]);
      OthersApart(at, at);
      ComposeOne(o, engines[at], e, now);
      WorldComposes(o, before, World(), at, e, now);
    }

    /** Run a script of contacts in order; it stops if a window trips the guard. The harness takes for granted that
        its own frames parse. */
    method RunSchedule(o: Oracles, meetings: seq<Schedule.Meeting>)
      returns (finished: bool, ghost worlds: seq<Schedule.World>)
      requires Valid() && AllPortable(World())
      requires forall m | m in meetings :: m.a < |engines| && m.b < |engines| && m.a != m.b
      modifies Repr()
      ensures finished ==> Valid() && AllPortable(World()) && Schedule.Run(o, worlds, meetings)
      ensures finished ==> worlds[0] == old(World()) && worlds[|meetings|] == World()
    {
      worlds := [World()];
      for i := 0 to |meetings|
        invariant Valid() && AllPortable(World()) && Schedule.Run(o, worlds, meetings[..i])
        invariant worlds[0] == old(World()) && worlds[i] == World()
      {
        assert meetings[i] in meetings;
        assert meetings[..i + 1] == meetings[..i] + [meetings[i]];
        var met := MeetAt(o, meetings[i].a, meetings[i].b, meetings[i].tick);
        if !met { return false, worlds; }
        Schedule.RunExtends(o, worlds, meetings[..i], World(), meetings[i]);
        worlds := worlds + [World()];
      }
      assert meetings[..|meetings|] == meetings;
      finished := true;
    }

    /** Run one scripted contact. */
    method MeetAt(o: Oracles, a: nat, b: nat, now: nat) returns (finished: bool)
      requires Valid() && AllPortable(World()) && a < |engines| && b < |engines| && a != b
      modifies Parts(engines[a]), Parts(engines[b])
      ensures finished ==> Valid() && AllPortable(World())
      ensures finished ==> Schedule.Meets(o, old(World()), World(), Schedule.Meeting(now, a, b))
      ensures !finished ==>
              |old(World())[a].store.entries| + |old(World())[b].store.entries| > 998
    {
      ghost var before := World();
      assert Idle(before[a]) && Idle(before[b]);
      ghost var toY, toX;
      OthersApart(a, b);
      finished, toY, toX := WindowAt(o, a, b, now);
      if finished { WorldMeets(o, before, World(), a, b, now, toY, toX); }
    }
  }

  method ComposeOne(o: Oracles, engine: RelayEngine, e: Envelope, now: nat)
    requires engine.Valid() && engine.difficulty == 0
    modifies engine.store, engine.store.memory
    ensures engine.Valid() && engine.View() == Compose(o, old(engine.View()), e, now).0
  {
    NoPuzzle(o, e.Id());
    var outcome, outbound;
    ghost var sent;
    outcome, outbound, sent := engine.ComposeLocal(o, e, now);
  }

  method StartEngine(key: MasterKey) returns (engine: RelayEngine)
    ensures fresh(engine) && fresh(engine.store) && fresh(engine.store.memory) && StartedEngine(engine)
  {
    var store := new DurableStore.Open(map[], key, [], 1000, 0);
    engine := new RelayEngine(store);
  }

  method StartEngines(count: nat) returns (nodes: seq<RelayEngine>)
    ensures |nodes| == count && forall j | 0 <= j < count :: StartedEngine(nodes[j])
    ensures forall j | 0 <= j < count :: fresh(nodes[j]) && fresh(nodes[j].store) && fresh(nodes[j].store.memory)
    ensures forall j, k | 0 <= j < count && 0 <= k < count && j != k :: Apart(nodes[j], nodes[k])
  {
    nodes := [];
    for i := 0 to count
      invariant |nodes| == i && forall j | 0 <= j < i :: StartedEngine(nodes[j])
      invariant forall j | 0 <= j < i :: fresh(nodes[j]) && fresh(nodes[j].store) && fresh(nodes[j].store.memory)
      invariant forall j, k | 0 <= j < i && 0 <= k < i && j != k :: Apart(nodes[j], nodes[k])
    {
      var engine := StartEngine(MasterKey(i));
      nodes := nodes + [engine];
    }
  }

  ghost predicate StartedEngine(engine: RelayEngine)
    reads Parts(engine)
  {
    engine.Valid() && engine.View() == Node(Empty(1000), map[], 0, RateLimiting.Config(120, 2_000_000, 60))
  }

  lemma WorldComposes(o: Oracles, before: Schedule.World, after: Schedule.World, at: nat, e: Envelope, now: nat)
    requires |after| == |before| && at < |before| && Schedule.AllIdle(before)
    requires after[at] == Compose(o, before[at], e, now).0
    requires forall k | 0 <= k < |before| && k != at :: after[k] == before[k]
    ensures after == before[at := Compose(o, before[at], e, now).0]
    ensures Schedule.AllIdle(after) && (AllPortable(before) && Mesh.Carries(Data(e, 0)) ==> AllPortable(after))
  {
    assert Idle(before[at]);
    Mesh.AcceptKeeps(before[at].store, e, now);
  }

  ghost predicate AllPortable(world: Schedule.World) {
    forall i | 0 <= i < |world| :: Portable(world[i])
  }

  lemma WorldMeets(o: Oracles, before: Schedule.World, after: Schedule.World, a: nat, b: nat, now: nat,
                   toY: seq<Outbound>, toX: seq<Outbound>)
    requires |after| == |before| && a < |before| && b < |before| && a != b
    requires Schedule.AllIdle(before) && AllPortable(before)
    requires Contacted(o, before[a], before[b], a, b, now, toY, toX, after[a], after[b])
    requires forall k | 0 <= k < |before| && k != a && k != b :: after[k] == before[k]
    ensures Schedule.Meets(o, before, after, Schedule.Meeting(now, a, b))
    ensures Schedule.AllIdle(after) && AllPortable(after)
  {
    assert Idle(before[a]) && Idle(before[b]) && Portable(before[a]) && Portable(before[b]);
    ContactPortable(o, Pair(before[a], before[b], a, b, now), toY, toX, after[a], after[b]);
    assert Schedule.InContact(o, before[a], before[b], Schedule.Meeting(now, a, b), after[a], after[b]);
    Schedule.MeetsIdle(o, before, after, Schedule.Meeting(now, a, b));
  }

  ghost function Parts(engine: RelayEngine): set<object> {
    {engine, engine.store, engine.store.memory}
  }
}
