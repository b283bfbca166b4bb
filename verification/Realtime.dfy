/** Realtime events across server instances: emit to local sockets, publish on one Redis channel, and emit what others
    published, dropping one's own echo. Each instance's connection to Redis is FIFO and may lose what it carries; each
    subscriber has a FIFO queue. */
module Realtime {
  import opened Wrappers

  /** number says which of its origin's publications a message is; the code does not send it. */
  datatype Message = Message(origin: Uuid, number: nat, room: string, event: string, data: string)

  datatype Server = Server(
    io: bool,
    subscriber: bool,
    toRedis: seq<Message>,    // handed to the Redis connection, not yet processed by Redis
    emitted: seq<Message>,    // emitted to local sockets, in order
    published: nat)

  // ------------------------------------------------------------------ one server

  function Initialized(s: Server): Server {
    if s.io then s else s.(io := true, subscriber := true)
  }

  function Publishing(self: Uuid, s: Server, redisReady: bool, room: string, event: string, data: string): Server {
    var m := Message(self, s.published, room, event, data);
    s.(published := s.published + 1,
       emitted := if s.io then s.emitted + [m] else s.emitted,
       toRedis := if redisReady then s.toRedis + [m] else s.toRedis)
  }

  function Received(self: Uuid, s: Server, m: Message): Server {
    if !s.io || m.origin == self then s else s.(emitted := s.emitted + [m])
  }

  function Closed(s: Server): Server {
    s.(io := false, subscriber := false)
  }

  class RealtimeServer {
    const SERVER_INSTANCE_ID: Uuid
    var ioInstance: bool
    var redisSubscriber: bool
    var toRedis: seq<Message>
    var emitted: seq<Message>
    var published: nat

    ghost function Model(): Server
      reads this
    {
      Server(ioInstance, redisSubscriber, toRedis, emitted, published)
    }

    constructor (id: Uuid)
      ensures SERVER_INSTANCE_ID == id && Model() == IDLE
    {
      SERVER_INSTANCE_ID := id;
      ioInstance, redisSubscriber, toRedis, emitted, published := false, false, [], [], 0;
    }

    method InitSocketServer()
      modifies this`ioInstance, this`redisSubscriber
      ensures Model() == Initialized(old(Model()))
      // Calling it again changes nothing; from now on every message of another instance is emitted.
      ensures Initialized(Model()) == Model()
      ensures forall m: Message :: m.origin != SERVER_INSTANCE_ID ==>
                Received(SERVER_INSTANCE_ID, Model(), m).emitted == emitted + [m]
      ensures ioInstance && redisSubscriber == (old(redisSubscriber) || !old(ioInstance))
    {
      if ioInstance {
        return;
      }
      ioInstance := true;
      if !redisSubscriber {
        redisSubscriber := true;
      }
    }

    method PublishRealtimeEvent(room: string, event: string, data: string, redisReady: bool)
      modifies this`toRedis, this`emitted, this`published
      ensures Model() == Publishing(SERVER_INSTANCE_ID, old(Model()), redisReady, room, event, data)
      // Emitted to this room under this event, while there is a socket server, and published to Redis when it is ready.
      ensures var m := Message(SERVER_INSTANCE_ID, old(published), room, event, data);
              && emitted == (if ioInstance then old(emitted) + [m] else old(emitted))
              && toRedis == (if redisReady then old(toRedis) + [m] else old(toRedis))
      // Its own messages stay in publication order, none twice, and the echo of this one will be dropped.
      ensures OwnOrder(SERVER_INSTANCE_ID, old(Model())) ==> OwnOrder(SERVER_INSTANCE_ID, Model())
      ensures ioInstance ==> Of(emitted, SERVER_INSTANCE_ID) == Of(old(emitted), SERVER_INSTANCE_ID) + [old(published)]
      ensures forall m :: m in toRedis && m !in old(toRedis) ==>
                Received(SERVER_INSTANCE_ID, Model(), m) == Model()
    {
      if OwnOrder(SERVER_INSTANCE_ID, Model()) {
        PublishOwn(SERVER_INSTANCE_ID, Model(), redisReady, room, event, data);
      }
      OfSnoc(emitted, Message(SERVER_INSTANCE_ID, published, room, event, data), SERVER_INSTANCE_ID);
      var m := Message(SERVER_INSTANCE_ID, published, room, event, data);
      published := published + 1;
      if ioInstance {
        emitted := emitted + [m];
      }
      if redisReady {
        toRedis := toRedis + [m];
      }
    }

    method OnMessage(m: Message)
      modifies this`emitted
      ensures Model() == Received(SERVER_INSTANCE_ID, old(Model()), m)
      // Nothing of its own is emitted a second time; of others, while there is a socket server, everything.
      ensures Of(emitted, SERVER_INSTANCE_ID) == Of(old(emitted), SERVER_INSTANCE_ID)
      ensures ioInstance ==>
                Foreign(emitted, SERVER_INSTANCE_ID) == Foreign(old(emitted) + [m], SERVER_INSTANCE_ID)
      ensures emitted == old(emitted) + if ioInstance && m.origin != SERVER_INSTANCE_ID then [m] else []
    {
      OfSnoc(emitted, m, SERVER_INSTANCE_ID);
      ForeignSnoc(emitted, m, SERVER_INSTANCE_ID);
      if !ioInstance {
        return;
      }
      if m.origin == SERVER_INSTANCE_ID {
        return;
      }
      emitted := emitted + [m];
    }

    method CloseSocketServer()
      modifies this`ioInstance, this`redisSubscriber
      ensures Model() == Closed(old(Model()))
      // Closing again changes nothing; until the next start no message is emitted.
      ensures Closed(Model()) == Model()
      ensures forall m :: Received(SERVER_INSTANCE_ID, Model(), m) == Model()
      ensures forall ready, room, event, data ::
                Publishing(SERVER_INSTANCE_ID, Model(), ready, room, event, data).emitted == emitted
      ensures !ioInstance && !redisSubscriber
    {
      if redisSubscriber {
        redisSubscriber := false;
      }
      if ioInstance {
        ioInstance := false;
      }
    }
  }

  // ------------------------------------------------------------------- the cluster

  /** A subscription in effect since the channel had length from, on a server that had emitted foreign before of
      other servers' messages until then. */
  datatype Subscription = Subscription(from: nat, queue: seq<Message>, before: seq<Message>)

  /** Servers by their instance id; channel is everything Redis has processed, in order. */
  datatype State = State(servers: map<Uuid, Server>, subscriptions: map<Uuid, Subscription>, channel: seq<Message>)

  datatype Step =
    | Init(id: Uuid)
    | Subscribe(id: Uuid)                  // the subscription takes effect in Redis
    | Publish(id: Uuid, redisReady: bool, room: string, event: string, data: string)
    | Arrive(id: Uuid)                     // Redis processes the next publish of a server
    | Lose(id: Uuid)                       // a connection drops the next publish
    | Deliver(id: Uuid)                    // a subscriber handles its next message
    | Close(id: Uuid)

  const IDLE := Server(false, false, [], [], 0)

  function Start(ids: set<Uuid>): State {
    State(map id | id in ids :: IDLE, map[], [])
  }

  /** The messages of others than id, in order. */
  function Foreign(ms: seq<Message>, id: Uuid): seq<Message> {
    if ms == [] then []
    else
      var front, last := Foreign(ms[..|ms| - 1], id), ms[|ms| - 1];
      if last.origin == id then front else front + [last]
  }

  function Enqueued(subscriptions: map<Uuid, Subscription>, m: Message): map<Uuid, Subscription> {
    map j | j in subscriptions :: subscriptions[j].(queue := subscriptions[j].queue + [m])
  }

  /** A step that is not possible changes nothing. */
  function Apply(s: State, step: Step): State {
    if step.id !in s.servers then s
    else
      var me := s.servers[step.id];
      match step
      case Init(id) => s.(servers := s.servers[id := Initialized(me)])
      case Subscribe(id) =>
        if me.subscriber && id !in s.subscriptions
        then s.(subscriptions := s.subscriptions[id := Subscription(|s.channel|, [], Foreign(me.emitted, id))])
        else s
      case Publish(id, redisReady, room, event, data) =>
        s.(servers := s.servers[id := Publishing(id, me, redisReady, room, event, data)])
      case Arrive(id) =>
        if me.toRedis == [] then s
        else
          State(s.servers[id := me.(toRedis := me.toRedis[1..])],
                Enqueued(s.subscriptions, me.toRedis[0]),
                s.channel + [me.toRedis[0]])
      case Lose(id) =>
        if me.toRedis == [] then s else s.(servers := s.servers[id := me.(toRedis := me.toRedis[1..])])
      case Deliver(id) =>
        if id !in s.subscriptions || s.subscriptions[id].queue == [] then s
        else
          var sub := s.subscriptions[id];
          s.(servers := s.servers[id := Received(id, me, sub.queue[0])],
             subscriptions := s.subscriptions[id := sub.(queue := sub.queue[1..])])
      case Close(id) =>
        s.(servers := s.servers[id := Closed(me)], subscriptions := s.subscriptions - {id})
  }

  function Run(s: State, steps: seq<Step>): State
    decreases |steps|
  {
    if steps == [] then s else Run(Apply(s, steps[0]), steps[1..])
  }

  // ------------------------------------------------------ order, one origin at a time

  /** The publication numbers of one origin's messages, in order. */
  function Of(ms: seq<Message>, origin: Uuid): seq<nat> {
    if ms == [] then []
    else
      var front, last := Of(ms[..|ms| - 1], origin), ms[|ms| - 1];
      if last.origin == origin then front + [last.number] else front
  }

  lemma {:induction false} OfAppend(a: seq<Message>, b: seq<Message>, origin: Uuid)
    ensures Of(a + b, origin) == Of(a, origin) + Of(b, origin)
  {
    if b == [] {
      assert a + b == a;
    } else {
      OfAppend(a, b[..|b| - 1], origin);
      assert (a + b)[..|a + b| - 1] == a + b[..|b| - 1];
    }
  }

  lemma OfSnoc(ms: seq<Message>, m: Message, origin: Uuid)
    ensures Of(ms + [m], origin) == if m.origin == origin then Of(ms, origin) + [m.number] else Of(ms, origin)
  {
    assert (ms + [m])[..|ms|] == ms;
  }

  lemma OfHead(ms: seq<Message>, origin: Uuid)
    requires ms != []
    ensures ms[0].origin == origin ==> Of(ms, origin) == [ms[0].number] + Of(ms[1..], origin)
    ensures ms[0].origin != origin ==> Of(ms, origin) == Of(ms[1..], origin)
  {
    OfAppend([ms[0]], ms[1..], origin);
    OfSnoc([], ms[0], origin);
    assert ms == [ms[0]] + ms[1..];
    assert [] + [ms[0]] == [ms[0]];
  }

  ghost predicate Ascending(s: seq<nat>, bound: nat) {
    && (forall a, b :: 0 <= a < b < |s| ==> s[a] < s[b])
    && (forall a :: 0 <= a < |s| ==> s[a] < bound)
  }

  /** Taking a stretch out of the middle. */
  lemma AscendingWithout(a: seq<nat>, b: seq<nat>, c: seq<nat>, bound: nat)
    requires Ascending(a + b + c, bound)
    ensures Ascending(a + c, bound)
  {
    var whole, part := a + b + c, a + c;
    forall i, j | 0 <= i < j < |part| ensures part[i] < part[j] {
      assert part[i] == whole[if i < |a| then i else i + |b|];
      assert part[j] == whole[if j < |a| then j else j + |b|];
    }
    forall i | 0 <= i < |part| ensures part[i] < bound {
      assert part[i] == whole[if i < |a| then i else i + |b|];
    }
  }

  /** One origin's messages on their way to one server's sockets: emitted, queued there, not yet at Redis. */
  function LineOf(emitted: seq<Message>, queue: seq<Message>, toRedis: seq<Message>, o: Uuid): seq<nat> {
    Of(emitted, o) + Of(queue, o) + Of(toRedis, o)
  }

  lemma MoveHead(a: seq<nat>, n: nat, b: seq<nat>)
    ensures (a + [n]) + b == a + ([n] + b)
  {
  }

  lemma HeadArrives(e: seq<Message>, q: seq<Message>, r: seq<Message>, o: Uuid)
    requires r != []
    ensures LineOf(e, q + [r[0]], r[1..], o) == LineOf(e, q, r, o)
  {
    OfHead(r, o);
    OfSnoc(q, r[0], o);
    if r[0].origin == o {
      MoveHead(Of(e, o) + Of(q, o), r[0].number, Of(r[1..], o));
      Regrouped(Of(e, o), Of(q, o), [r[0].number]);
    }
  }

  lemma Regrouped(a: seq<nat>, b: seq<nat>, c: seq<nat>)
    ensures (a + b) + c == a + (b + c)
  {
  }

  lemma HeadDelivered(e: seq<Message>, q: seq<Message>, r: seq<Message>, o: Uuid)
    requires q != []
    ensures LineOf(e + [q[0]], q[1..], r, o) == LineOf(e, q, r, o)
  {
    OfHead(q, o);
    OfSnoc(e, q[0], o);
    if q[0].origin == o {
      MoveHead(Of(e, o), q[0].number, Of(q[1..], o));
    }
  }

  lemma Handed(e: seq<Message>, q: seq<Message>, r: seq<Message>, o: Uuid, m: Message)
    requires m.origin == o && Ascending(LineOf(e, q, r, o), m.number)
    ensures Ascending(LineOf(e, q, r + [m], o), m.number + 1)
    ensures Ascending(LineOf(e, q, r, o), m.number + 1)
  {
    OfSnoc(r, m, o);
    AscendingSnoc(LineOf(e, q, r, o), m.number);
    Regrouped(Of(e, o) + Of(q, o), Of(r, o), [m.number]);
  }

  lemma AscendingSnoc(s: seq<nat>, bound: nat)
    requires Ascending(s, bound)
    ensures Ascending(s + [bound], bound + 1) && Ascending(s, bound + 1)
  {
  }

  lemma HeadLost(e: seq<Message>, q: seq<Message>, r: seq<Message>, o: Uuid, bound: nat)
    requires r != [] && Ascending(LineOf(e, q, r, o), bound)
    ensures Ascending(LineOf(e, q, r[1..], o), bound)
  {
    OfHead(r, o);
    if r[0].origin == o {
      assert LineOf(e, q, r, o) == (Of(e, o) + Of(q, o)) + [r[0].number] + Of(r[1..], o);
      AscendingWithout(Of(e, o) + Of(q, o), [r[0].number], Of(r[1..], o), bound);
    }
  }

  lemma QueueDropped(e: seq<Message>, q: seq<Message>, r: seq<Message>, o: Uuid, bound: nat)
    requires Ascending(LineOf(e, q, r, o), bound)
    ensures Ascending(LineOf(e, [], r, o), bound)
  {
    AscendingWithout(Of(e, o), Of(q, o), Of(r, o), bound);
    assert LineOf(e, [], r, o) == Of(e, o) + Of(r, o);
  }

  lemma Regroup(a: seq<nat>, n: nat, b: seq<nat>, c: seq<nat>)
    ensures (a + ([n] + b)) + c == a + [n] + (b + c)
    ensures (a + b) + c == a + (b + c)
  {
  }

  lemma QueueHeadDropped(e: seq<Message>, q: seq<Message>, r: seq<Message>, o: Uuid, bound: nat)
    requires q != [] && Ascending(LineOf(e, q, r, o), bound)
    ensures Ascending(LineOf(e, q[1..], r, o), bound)
  {
    OfHead(q, o);
    if q[0].origin == o {
      Regroup(Of(e, o), q[0].number, Of(q[1..], o), Of(r, o));
      AscendingWithout(Of(e, o), [q[0].number], Of(q[1..], o) + Of(r, o), bound);
    }
  }

  function QueueOf(s: State, id: Uuid): seq<Message> {
    if id in s.subscriptions then s.subscriptions[id].queue else []
  }

  ghost predicate LineUp(s: State, i: Uuid, o: Uuid)
    requires i in s.servers && o in s.servers
  {
    Ascending(LineOf(s.servers[i].emitted, QueueOf(s, i), s.servers[o].toRedis, o), s.servers[o].published)
  }

  ghost predicate OwnOrder(id: Uuid, v: Server) {
    && Ascending(Of(v.emitted, id), v.published)
    && (forall m :: m in v.toRedis ==> m.origin == id)
  }

  ghost predicate Ordered(s: State) {
    && s.subscriptions.Keys <= s.servers.Keys
    && (forall id :: id in s.servers ==> OwnOrder(id, s.servers[id]))
    && (forall i, o :: i in s.servers && o in s.servers && i != o ==> LineUp(s, i, o))
  }

  lemma PublishOwnLine(s: State, step: Step, i: Uuid)
    requires step.Publish? && step.id in s.servers && i in s.servers && i != step.id && LineUp(s, i, step.id)
    ensures LineUp(Apply(s, step), i, step.id)
  {
    var s', me := Apply(s, step), s.servers[step.id];
    var m := Message(step.id, me.published, step.room, step.event, step.data);
    Handed(s.servers[i].emitted, QueueOf(s, i), me.toRedis, step.id, m);
    assert QueueOf(s', i) == QueueOf(s, i) && s'.servers[i].emitted == s.servers[i].emitted;
    assert s'.servers[step.id].toRedis == if step.redisReady then me.toRedis + [m] else me.toRedis;
  }

  lemma PublishLine(s: State, step: Step, i: Uuid, o: Uuid)
    requires step.Publish? && step.id in s.servers && i in s.servers && o in s.servers && i != o && LineUp(s, i, o)
    ensures LineUp(Apply(s, step), i, o)
  {
    if o == step.id {
      PublishOwnLine(s, step, i);
    } else {
      var s', me := Apply(s, step), s.servers[step.id];
      var m := Message(step.id, me.published, step.room, step.event, step.data);
      var e := s.servers[i].emitted;
      EmittedOther(e, QueueOf(s, i), s.servers[o].toRedis, o, m);
      assert QueueOf(s', i) == QueueOf(s, i) && s'.servers[o] == s.servers[o];
      assert s'.servers[i].emitted == e || s'.servers[i].emitted == e + [m];
    }
  }

  lemma EmittedOther(e: seq<Message>, q: seq<Message>, r: seq<Message>, o: Uuid, m: Message)
    requires m.origin != o
    ensures LineOf(e + [m], q, r, o) == LineOf(e, q, r, o)
  {
    OfSnoc(e, m, o);
  }

  lemma ArriveLine(s: State, id: Uuid, i: Uuid, o: Uuid)
    requires id in s.servers && i in s.servers && o in s.servers && i != o && LineUp(s, i, o)
    requires s.servers[id].toRedis != [] && s.servers[id].toRedis[0].origin == id
    ensures LineUp(Apply(s, Arrive(id)), i, o)
  {
    var s' := Apply(s, Arrive(id));
    var e, q, r := s.servers[i].emitted, QueueOf(s, i), s.servers[id].toRedis;
    assert s'.servers[i].emitted == e && s'.servers[o].published == s.servers[o].published;
    if o == id {
      HeadArrives(e, q, r, o);
      HeadLost(e, q, r, o, s.servers[o].published);
      assert s'.servers[o].toRedis == r[1..] && (QueueOf(s', i) == q || QueueOf(s', i) == q + [r[0]]);
    } else {
      QueuedOther(e, q, s.servers[o].toRedis, o, r[0]);
      assert s'.servers[o].toRedis == s.servers[o].toRedis && (QueueOf(s', i) == q || QueueOf(s', i) == q + [r[0]]);
    }
  }

  lemma QueuedOther(e: seq<Message>, q: seq<Message>, r: seq<Message>, o: Uuid, m: Message)
    requires m.origin != o
    ensures LineOf(e, q + [m], r, o) == LineOf(e, q, r, o)
  {
    OfSnoc(q, m, o);
  }

  lemma LoseLine(s: State, id: Uuid, i: Uuid, o: Uuid)
    requires id in s.servers && i in s.servers && o in s.servers && i != o && LineUp(s, i, o)
    requires s.servers[id].toRedis != []
    ensures LineUp(Apply(s, Lose(id)), i, o)
  {
    var s' := Apply(s, Lose(id));
    var e, q, r := s.servers[i].emitted, QueueOf(s, i), s.servers[o].toRedis;
    assert s'.servers[i].emitted == e && QueueOf(s', i) == q && s'.servers[o].published == s.servers[o].published;
    if o == id {
      HeadLost(e, q, r, o, s.servers[o].published);
      assert s'.servers[o].toRedis == r[1..];
    } else {
      assert s'.servers[o].toRedis == r;
    }
  }

  lemma DeliverLine(s: State, id: Uuid, i: Uuid, o: Uuid)
    requires id in s.servers && i in s.servers && o in s.servers && i != o && LineUp(s, i, o)
    requires id in s.subscriptions && s.subscriptions[id].queue != []
    ensures LineUp(Apply(s, Deliver(id)), i, o)
  {
    var s' := Apply(s, Deliver(id));
    var e, q, r := s.servers[i].emitted, QueueOf(s, i), s.servers[o].toRedis;
    assert s'.servers[o].toRedis == r && s'.servers[o].published == s.servers[o].published;
    if i == id {
      if s'.servers[i].emitted == e {
        QueueHeadDropped(e, q, r, o, s.servers[o].published);
      } else {
        HeadDelivered(e, q, r, o);
      }
    }
  }

  lemma QuietLine(s: State, step: Step, i: Uuid, o: Uuid)
    requires step.id in s.servers && i in s.servers && o in s.servers && LineUp(s, i, o)
    requires step.Init? || step.Subscribe?
    ensures LineUp(Apply(s, step), i, o)
  {
    var s' := Apply(s, step);
    assert QueueOf(s', i) == QueueOf(s, i) && s'.servers[i].emitted == s.servers[i].emitted;
    assert s'.servers[o].toRedis == s.servers[o].toRedis && s'.servers[o].published == s.servers[o].published;
  }

  lemma CloseLine(s: State, id: Uuid, i: Uuid, o: Uuid)
    requires id in s.servers && i in s.servers && o in s.servers && LineUp(s, i, o)
    ensures LineUp(Apply(s, Close(id)), i, o)
  {
    var s' := Apply(s, Close(id));
    assert s'.servers[i].emitted == s.servers[i].emitted;
    assert s'.servers[o].toRedis == s.servers[o].toRedis && s'.servers[o].published == s.servers[o].published;
    if i == id {
      QueueDropped(s.servers[i].emitted, QueueOf(s, i), s.servers[o].toRedis, o, s.servers[o].published);
      assert QueueOf(s', i) == [];
    } else {
      assert QueueOf(s', i) == QueueOf(s, i);
    }
  }

  /** Every step leaves a line as it was, takes a stretch out of it, or puts the next publication at its end. */
  lemma LineAfter(s: State, step: Step, i: Uuid, o: Uuid)
    requires step.id in s.servers && i in s.servers && o in s.servers && i != o && LineUp(s, i, o)
    requires OwnOrder(step.id, s.servers[step.id])
    ensures LineUp(Apply(s, step), i, o)
  {
    var id := step.id;
    match step {
      case Init(_) => QuietLine(s, step, i, o);
      case Subscribe(_) => QuietLine(s, step, i, o);
      case Publish(_, _, _, _, _) => PublishLine(s, step, i, o);
      case Arrive(_) =>
        if s.servers[id].toRedis != [] {
          assert s.servers[id].toRedis[0] in s.servers[id].toRedis;
          ArriveLine(s, id, i, o);
        }
      case Lose(_) => if s.servers[id].toRedis != [] { LoseLine(s, id, i, o); }
      case Deliver(_) => if id in s.subscriptions && s.subscriptions[id].queue != [] { DeliverLine(s, id, i, o); }
      case Close(_) => CloseLine(s, id, i, o);
    }
  }

  lemma PublishOwn(id: Uuid, v: Server, redisReady: bool, room: string, event: string, data: string)
    requires OwnOrder(id, v)
    ensures OwnOrder(id, Publishing(id, v, redisReady, room, event, data))
  {
    OfSnoc(v.emitted, Message(id, v.published, room, event, data), id);
    AscendingSnoc(Of(v.emitted, id), v.published);
  }

  lemma OwnAfter(s: State, step: Step, id: Uuid)
    requires step.id in s.servers && id in s.servers && OwnOrder(id, s.servers[id])
    ensures var s' := Apply(s, step); id in s'.servers && OwnOrder(id, s'.servers[id])
  {
    var me := s.servers[id];
    if step.id == id {
      if step.Publish? {
        PublishOwn(id, me, step.redisReady, step.room, step.event, step.data);
      } else if step.Deliver? && id in s.subscriptions && s.subscriptions[id].queue != [] {
        OfSnoc(me.emitted, s.subscriptions[id].queue[0], id);
      } else if (step.Arrive? || step.Lose?) && me.toRedis != [] {
        assert forall m :: m in me.toRedis[1..] ==> m in me.toRedis;
      }
    }
  }

  lemma StepKeepsOrdered(s: State, step: Step)
    requires Ordered(s)
    ensures Ordered(Apply(s, step))
  {
    if step.id in s.servers {
      var s' := Apply(s, step);
      forall id | id in s'.servers ensures OwnOrder(id, s'.servers[id]) {
        OwnAfter(s, step, id);
      }
      forall i, o | i in s'.servers && o in s'.servers && i != o ensures LineUp(s', i, o) {
        LineAfter(s, step, i, o);
      }
    }
  }

  // --------------------------------------------------- what a subscriber has emitted

  lemma ForeignSnoc(ms: seq<Message>, m: Message, id: Uuid)
    ensures Foreign(ms + [m], id) == if m.origin == id then Foreign(ms, id) else Foreign(ms, id) + [m]
  {
    assert (ms + [m])[..|ms|] == ms;
  }

  /** The queue is the end of the channel, and what id emitted of others is what it had emitted before subscribing and
      then the channel from there up to the queue. */
  ghost predicate CaughtUp(id: Uuid, v: Server, sub: Subscription, channel: seq<Message>) {
    |sub.queue| <= |channel| && CaughtUpTo(id, v, sub, channel, |channel| - |sub.queue|)
  }

  /** The same with the place in the channel up to which id has emitted. */
  ghost predicate CaughtUpTo(id: Uuid, v: Server, sub: Subscription, channel: seq<Message>, n: nat) {
    && v.io
    && sub.from <= n <= |channel|
    && sub.queue == channel[n..]
    && Foreign(v.emitted, id) == sub.before + Foreign(channel[sub.from..n], id)
  }

  ghost predicate Delivering(s: State) {
    && s.subscriptions.Keys <= s.servers.Keys
    && (forall id :: id in s.servers ==> s.servers[id].subscriber ==> s.servers[id].io)
    && (forall id :: id in s.subscriptions ==> CaughtUp(id, s.servers[id], s.subscriptions[id], s.channel))
  }

  lemma ArriveCaughtUp(id: Uuid, v: Server, sub: Subscription, channel: seq<Message>, m: Message, v': Server)
    requires CaughtUp(id, v, sub, channel) && v'.io && v'.emitted == v.emitted
    ensures CaughtUp(id, v', sub.(queue := sub.queue + [m]), channel + [m])
  {
    var n := |channel| - |sub.queue|;
    assert (channel + [m])[n..] == sub.queue + [m];
    assert (channel + [m])[sub.from..n] == channel[sub.from..n];
  }

  lemma NextSlice(channel: seq<Message>, from: nat, n: nat)
    requires from <= n < |channel|
    ensures channel[n..][0] == channel[n] && channel[n..][1..] == channel[n + 1..]
    ensures channel[from..n + 1] == channel[from..n] + [channel[n]]
  {
  }

  lemma DeliverCaughtUp(id: Uuid, v: Server, sub: Subscription, channel: seq<Message>)
    requires CaughtUp(id, v, sub, channel) && sub.queue != []
    ensures CaughtUp(id, Received(id, v, sub.queue[0]), sub.(queue := sub.queue[1..]), channel)
  {
    var n := |channel| - |sub.queue|;
    EmitsNext(id, v, sub, channel, n);
    assert |sub.queue[1..]| == |channel| - (n + 1);
  }

  lemma EmitsNext(id: Uuid, v: Server, sub: Subscription, channel: seq<Message>, n: nat)
    requires CaughtUpTo(id, v, sub, channel, n) && n < |channel|
    ensures sub.queue != []
    ensures CaughtUpTo(id, Received(id, v, sub.queue[0]), sub.(queue := sub.queue[1..]), channel, n + 1)
  {
    var m := channel[n];
    NextSlice(channel, sub.from, n);
    EmittedForeign(id, v, m);
    ForeignSnoc(channel[sub.from..n], m, id);
    SnocAssociates(sub.before, Foreign(channel[sub.from..n], id), m);
  }

  lemma EmittedForeign(id: Uuid, v: Server, m: Message)
    requires v.io
    ensures Received(id, v, m).io
    ensures Foreign(Received(id, v, m).emitted, id) ==
            if m.origin == id then Foreign(v.emitted, id) else Foreign(v.emitted, id) + [m]
  {
    ForeignSnoc(v.emitted, m, id);
  }

  lemma SnocAssociates(a: seq<Message>, b: seq<Message>, m: Message)
    ensures (a + b) + [m] == a + (b + [m])
  {
  }

  lemma StepKeepsDelivering(s: State, step: Step)
    requires Delivering(s)
    ensures Delivering(Apply(s, step))
  {
    if step.id in s.servers {
      var s' := Apply(s, step);
      forall id | id in s'.subscriptions ensures CaughtUp(id, s'.servers[id], s'.subscriptions[id], s'.channel) {
        if id in s.subscriptions {
          CaughtUpAfter(s, step, id);
        } else {
          assert s.channel[|s.channel|..] == [];
        }
      }
    }
  }

  lemma CaughtUpAfter(s: State, step: Step, id: Uuid)
    requires Delivering(s) && step.id in s.servers && id in s.subscriptions && id in Apply(s, step).subscriptions
    ensures var s' := Apply(s, step); id in s'.servers && CaughtUp(id, s'.servers[id], s'.subscriptions[id], s'.channel)
  {
    var me := s.servers[step.id];
    assert CaughtUp(id, s.servers[id], s.subscriptions[id], s.channel);
    if step.Publish? && step.id == id {
      ForeignSnoc(me.emitted, Message(id, me.published, step.room, step.event, step.data), id);
    } else if step.Arrive? && me.toRedis != [] {
      ArriveCaughtUp(id, s.servers[id], s.subscriptions[id], s.channel, me.toRedis[0], Apply(s, step).servers[id]);
    } else if step.Deliver? && step.id == id && s.subscriptions[id].queue != [] {
      DeliverCaughtUp(id, me, s.subscriptions[id], s.channel);
    }
  }

  lemma {:induction false} RunKeeps(s: State, steps: seq<Step>)
    requires Ordered(s) && Delivering(s)
    ensures Ordered(Run(s, steps)) && Delivering(Run(s, steps))
    ensures Run(s, steps).servers.Keys == s.servers.Keys
    decreases |steps|
  {
    if steps != [] {
      StepKeepsOrdered(s, steps[0]);
      StepKeepsDelivering(s, steps[0]);
      RunKeeps(Apply(s, steps[0]), steps[1..]);
    }
  }

  lemma Reached(ids: set<Uuid>, steps: seq<Step>)
    ensures Ordered(Run(Start(ids), steps)) && Delivering(Run(Start(ids), steps))
    ensures Run(Start(ids), steps).servers.Keys == ids
  {
    var start := Start(ids);
    forall i, o | i in ids && o in ids && i != o ensures LineUp(start, i, o) {
    }
    RunKeeps(start, steps);
  }

  // ---------------------------------------------------------------------- delivery

  lemma AscendingFront(a: seq<nat>, b: seq<nat>, bound: nat)
    requires Ascending(a + b, bound)
    ensures Ascending(a, bound)
  {
    assert forall i :: 0 <= i < |a| ==> (a + b)[i] == a[i];
  }

  lemma EmittedAscending(e: seq<Message>, q: seq<Message>, r: seq<Message>, o: Uuid, bound: nat)
    requires Ascending(LineOf(e, q, r, o), bound)
    ensures Ascending(Of(e, o), bound)
  {
    AscendingFront(Of(e, o) + Of(q, o), Of(r, o), bound);
    AscendingFront(Of(e, o), Of(q, o), bound);
  }

  /** In every run with distinct instance ids, closing and subscribing again included, every instance emits the messages
      of each origin in publication order, and none twice. */
  lemma EmittedInOrderOnce(ids: set<Uuid>, steps: seq<Step>, id: Uuid, origin: Uuid)
    requires id in ids && origin in ids
    ensures var s := Run(Start(ids), steps);
            id in s.servers && forall a, b :: 0 <= a < b < |Of(s.servers[id].emitted, origin)| ==>
              Of(s.servers[id].emitted, origin)[a] < Of(s.servers[id].emitted, origin)[b]
  {
    Reached(ids, steps);
    var s := Run(Start(ids), steps);
    if id == origin {
      assert OwnOrder(id, s.servers[id]);
    } else {
      assert LineUp(s, id, origin);
      EmittedAscending(s.servers[id].emitted, QueueOf(s, id), s.servers[origin].toRedis, origin,
                       s.servers[origin].published);
    }
  }

  lemma NothingQueued(id: Uuid, v: Server, sub: Subscription, channel: seq<Message>)
    requires CaughtUp(id, v, sub, channel) && sub.queue == []
    ensures sub.from <= |channel| && Foreign(v.emitted, id) == sub.before + Foreign(channel[sub.from..], id)
  {
    assert channel[sub.from..|channel|] == channel[sub.from..];
  }

  /** Once a subscriber's queue is empty, what it has emitted of other instances since its subscription took effect is
      exactly what reached Redis since then from other instances, each message once, in the channel's order. */
  lemma DeliveredExactly(ids: set<Uuid>, steps: seq<Step>, id: Uuid)
    requires var s := Run(Start(ids), steps); id in s.subscriptions && s.subscriptions[id].queue == []
    ensures var s := Run(Start(ids), steps);
            && id in s.servers && s.subscriptions[id].from <= |s.channel|
            && Foreign(s.servers[id].emitted, id) ==
               s.subscriptions[id].before + Foreign(s.channel[s.subscriptions[id].from..], id)
  {
    Reached(ids, steps);
    var s := Run(Start(ids), steps);
    NothingQueued(id, s.servers[id], s.subscriptions[id], s.channel);
  }

  /** A publication is emitted to local sockets at once, and never again by its own instance: the count of its number
      among what the instance emits is one in every later state. */
  lemma PublisherEmitsOnce(ids: set<Uuid>, before: seq<Step>, id: Uuid, ready: bool, room: string, event: string,
                           data: string, after: seq<Step>)
    requires id in ids && id in Run(Start(ids), before).servers && Run(Start(ids), before).servers[id].io
    ensures var s := Run(Start(ids), before);
            var s' := Run(Apply(s, Publish(id, ready, room, event, data)), after);
            id in s'.servers && multiset(Of(s'.servers[id].emitted, id))[s.servers[id].published] == 1
  {
    Reached(ids, before);
    var s := Run(Start(ids), before);
    var published := Apply(s, Publish(id, ready, room, event, data));
    OfSnoc(s.servers[id].emitted, Message(id, s.servers[id].published, room, event, data), id);
    StepKeepsOrdered(s, Publish(id, ready, room, event, data));
    StepKeepsDelivering(s, Publish(id, ready, room, event, data));
    RunKeeps(published, after);
    EmittedStays(published, after, id);
    var s' := Run(published, after);
    var numbers := Of(s'.servers[id].emitted, id);
    assert OwnOrder(id, s'.servers[id]);
    assert Of(published.servers[id].emitted, id)[|Of(s.servers[id].emitted, id)|] == s.servers[id].published;
    AscendingOnce(numbers, s'.servers[id].published, |Of(s.servers[id].emitted, id)|);
  }

  lemma AscendingOnce(s: seq<nat>, bound: nat, i: nat)
    requires Ascending(s, bound) && i < |s|
    ensures multiset(s)[s[i]] == 1
  {
    assert s == s[..i] + [s[i]] + s[i + 1..];
    assert s[i] !in s[..i] && s[i] !in s[i + 1..];
  }

  lemma {:induction false} EmittedStays(s: State, steps: seq<Step>, id: Uuid)
    requires id in s.servers
    ensures id in Run(s, steps).servers
    ensures Of(s.servers[id].emitted, id) <= Of(Run(s, steps).servers[id].emitted, id)
    decreases |steps|
  {
    if steps != [] {
      var s' := Apply(s, steps[0]);
      if s'.servers[id].emitted != s.servers[id].emitted {
        var m := s'.servers[id].emitted[|s.servers[id].emitted|];
        assert s'.servers[id].emitted == s.servers[id].emitted + [m];
        OfSnoc(s.servers[id].emitted, m, id);
      }
      EmittedStays(s', steps[1..], id);
    }
  }

  // ------------------------------------------------------- what a message says

  /** What is published: to which room, as which event, with what. */
  datatype Event = Event(room: string, event: string, data: string)

  /** What an instance published, in order. */
  function Publications(steps: seq<Step>, origin: Uuid): seq<Event> {
    if steps == [] then []
    else
      var front, last := Publications(steps[..|steps| - 1], origin), steps[|steps| - 1];
      if last.Publish? && last.id == origin then front + [Event(last.room, last.event, last.data)] else front
  }

  /** The message says what its origin published under its number. */
  ghost predicate Says(m: Message, steps: seq<Step>) {
    m.number < |Publications(steps, m.origin)| &&
    Publications(steps, m.origin)[m.number] == Event(m.room, m.event, m.data)
  }

  ghost predicate AllSay(ms: seq<Message>, steps: seq<Step>) {
    forall m :: m in ms ==> Says(m, steps)
  }

  /** Wherever a message is, it says what was published; and every origin has counted its publications. */
  ghost predicate Truthful(s: State, steps: seq<Step>) {
    && (forall id :: id in s.servers ==>
          && s.servers[id].published == |Publications(steps, id)|
          && AllSay(s.servers[id].emitted, steps) && AllSay(s.servers[id].toRedis, steps))
    && (forall id :: id in s.subscriptions ==> AllSay(s.subscriptions[id].queue, steps))
  }

  lemma SaysLater(steps: seq<Step>, step: Step)
    ensures forall origin :: Publications(steps + [step], origin) ==
              Publications(steps, origin) +
              if step.Publish? && step.id == origin then [Event(step.room, step.event, step.data)] else []
    ensures forall m :: Says(m, steps) ==> Says(m, steps + [step])
  {
    assert (steps + [step])[..|steps|] == steps;
  }

  lemma StepKeepsTruthful(s: State, steps: seq<Step>, step: Step)
    requires Truthful(s, steps)
    ensures Truthful(Apply(s, step), steps + [step])
  {
    SaysLater(steps, step);
    if step.Publish? && step.id in s.servers {
      assert Says(Message(step.id, s.servers[step.id].published, step.room, step.event, step.data), steps + [step]);
    }
  }

  lemma {:induction false} RunKeepsTruthful(s: State, before: seq<Step>, steps: seq<Step>)
    requires Truthful(s, before)
    ensures Truthful(Run(s, steps), before + steps)
    decreases |steps|
  {
    if steps == [] {
      assert before + steps == before;
    } else {
      StepKeepsTruthful(s, before, steps[0]);
      RunKeepsTruthful(Apply(s, steps[0]), before + [steps[0]], steps[1..]);
      assert before + [steps[0]] + steps[1..] == before + steps;
    }
  }

  /** In every run whatever any instance emits goes to the room, under the event and with the data that its origin
      published under its number. */
  lemma EmittedAsPublished(ids: set<Uuid>, steps: seq<Step>, id: Uuid, m: Message)
    requires var s := Run(Start(ids), steps); id in s.servers && m in s.servers[id].emitted
    ensures m.number < |Publications(steps, m.origin)|
    ensures Publications(steps, m.origin)[m.number] == Event(m.room, m.event, m.data)
  {
    RunKeepsTruthful(Start(ids), [], steps);
    assert [] + steps == steps;
  }
}
