/** Request correlation end to end, over whole messages. */
module Correlation {
  // One client, one server connection and two FIFO channels, with subscriptions, sends, dispatches, pushes, replies,
  // timeouts and destroyed contexts in any order.

  import opened Protocol
  import opened Messages
  import Framing
  import opened ClientService
  import opened Serving

  datatype Request = Request(message: Message, waiter: Waiter)
  datatype Dispatched = Dispatched(request: Message, bodies: seq<Body>)
  datatype Call = Call(id: string, reply: Message)

  /** The client's service, the server's routes, and what has happened so far. */
  datatype World = World(
    service: Service,
    routes: Routes,
    used: set<string>,                      // every id drawn by either side
    issued: set<string>,                    // ids the client put on its messages
    requests: map<string, Request>,         // requests sent with a waiter
    dispatched: map<string, Dispatched>,    // requests the server has handled
    sent: seq<Message>,                     // everything the server wrote
    routed: seq<Message>,                   // everything the client read
    calls: seq<Call>,                       // calls of response handlers, in order
    answered: map<string, Message>,
    timedOut: set<string>,
    returned: map<string, Outcome>)         // blocking calls that came back

  datatype System = System(world: World, up: seq<Message>, down: seq<Message>)

  datatype Event =
    | Send(message: Message, waiter: Waiter, written: bool)  // not written when the link dropped in between
    | SendPlain(message: Message)
    | Serve(bodies: seq<Body>)
    | Push(message: Message)
    | Receive
    | Timer(id: string)
    | Destroy(context: nat)
    | End(id: string)
    | Subscribe(event: bool, command: Command, handler: string)
    | Unsubscribe(event: bool, command: Command)
    | Carry(upwards: bool, count: nat)                       // bytes in transit; nothing at this level

  function Initial(routes: Routes): System {
    System(World(Service(Tables(map[], map[], map[]), {}, map[], {}, map[], [], []), routes,
                 {}, {}, map[], map[], [], [], [], map[], {}, map[]), [], [])
  }

  /** Ids drawn for messages are new. */
  predicate Fresh(w: World, id: string) {
    id != "" && id !in w.used
  }

  predicate CanSend(w: World, m: Message, waiter: Waiter) {
    Fresh(w, m.requestId) && (waiter.Async? ==> waiter.context !in w.service.dead)
  }

  function BeginRequest(w: World, m: Message, waiter: Waiter): World {
    w.(service := Start(w.service, m.requestId, waiter),
       used := w.used + {m.requestId}, issued := w.issued + {m.requestId},
       requests := w.requests[m.requestId := Request(m, waiter)])
  }

  function BeginPlain(w: World, m: Message): World {
    w.(used := w.used + {m.requestId}, issued := w.issued + {m.requestId})
  }

  function Dispatch(w: World, m: Message, bodies: seq<Body>): World {
    w.(dispatched := w.dispatched[m.requestId := Dispatched(m, bodies)],
       sent := w.sent + Replies(w.routes, m, bodies))
  }

  function PushOne(w: World, m: Message): World {
    w.(used := w.used + {m.requestId}, sent := w.sent + [m])
  }

  function Record(w: World, m: Message, d: Delivery): World {
    if d.ToWaiter?
    then w.(routed := w.routed + [m], calls := w.calls + [Call(d.id, m)], answered := w.answered[d.id := m])
    else w.(routed := w.routed + [m])
  }

  function ReceiveOne(w: World, m: Message): World {
    Record(w, m, Route(w.service.tables, m).0).(service := Accept(w.service, m))
  }

  function FireTimer(w: World, id: string): World
    requires id in w.service.timers
  {
    w.(service := TimerFires(w.service, id),
       timedOut := if id in w.service.fired then w.timedOut else w.timedOut + {id})
  }

  predicate CanEnd(w: World, id: string) {
    id in w.requests && w.requests[id].waiter.Blocking? && id !in w.returned
  }

  function EndCall(w: World, id: string): World {
    var (service, outcome) := Return(w.service, id);
    w.(service := service, returned := w.returned[id := outcome],
       timedOut := if outcome.TimedOut? then w.timedOut + {id} else w.timedOut)
  }

  /** An event that is not possible changes nothing. */
  function Next(s: System, e: Event): System {
    var w := s.world;
    match e
    case Send(m, waiter, written) =>
      if CanSend(w, m, waiter) then s.(world := BeginRequest(w, m, waiter), up := if written then s.up + [m] else s.up)
      else s
    case SendPlain(m) =>
      if Fresh(w, m.requestId) then s.(world := BeginPlain(w, m), up := s.up + [m]) else s
    case Serve(bodies) =>
      if s.up == [] then s
      else System(Dispatch(w, s.up[0], bodies), s.up[1..], s.down + Replies(w.routes, s.up[0], bodies))
    case Push(m) =>
      if Fresh(w, m.requestId) then s.(world := PushOne(w, m), down := s.down + [m]) else s
    case Receive =>
      if s.down == [] then s else s.(world := ReceiveOne(w, s.down[0]), down := s.down[1..])
    case Timer(id) =>
      if id in w.service.timers then s.(world := FireTimer(w, id)) else s
    case Destroy(context) =>
      s.(world := w.(service := DestroyContext(w.service, context)))
    case End(id) =>
      if CanEnd(w, id) then s.(world := EndCall(w, id)) else s
    case Subscribe(event, command, handler) =>
      s.(world := w.(service := Listen(w.service, event, command, handler)))
    case Unsubscribe(event, command) =>
      s.(world := w.(service := Unlisten(w.service, event, command)))
    case Carry(_, _) => s
  }

  function Run(routes: Routes, events: seq<Event>): System {
    if events == [] then Initial(routes) else Next(Run(routes, events[..|events| - 1]), events[|events| - 1])
  }

  // ---------- Reading histories by request id ----------

  function WithId(ms: seq<Message>, id: string): seq<Message> {
    if ms == [] then []
    else WithId(ms[..|ms| - 1], id) + if ms[|ms| - 1].requestId == id then [ms[|ms| - 1]] else []
  }

  /** The first message a response handler could have been called with. */
  function FirstReply(ms: seq<Message>): Option<Message> {
    if ms == [] then None
    else
      var r := FirstReply(ms[..|ms| - 1]);
      if r.Some? then r
      else if Deliverable(ms[|ms| - 1]) then Some(ms[|ms| - 1])
      else None
  }

  lemma Snoc<T>(a: seq<T>, x: T)
    ensures (a + [x])[..|a + [x]| - 1] == a && (a + [x])[|a + [x]| - 1] == x
  {
  }

  lemma WithIdSnoc(ms: seq<Message>, m: Message, id: string)
    ensures WithId(ms + [m], id) == WithId(ms, id) + if m.requestId == id then [m] else []
  {
    Snoc(ms, m);
  }

  lemma {:induction false} WithIdAppend(ms: seq<Message>, ns: seq<Message>, id: string)
    ensures WithId(ms + ns, id) == WithId(ms, id) + WithId(ns, id)
  {
    if ns == [] {
      assert ms + ns == ms;
      assert WithId(ms, id) + [] == WithId(ms, id);
    } else {
      var init, last := ns[..|ns| - 1], ns[|ns| - 1];
      var own := if last.requestId == id then [last] else [];
      WithIdAppend(ms, init, id);
      assert ms + ns == (ms + init) + [last];
      WithIdSnoc(ms + init, last, id);
      Framing.Assoc(WithId(ms, id), WithId(init, id), own);
    }
  }

  lemma {:induction false} WithIdNone(ms: seq<Message>, id: string)
    requires forall i :: 0 <= i < |ms| ==> ms[i].requestId != id
    ensures WithId(ms, id) == []
  {
    if ms != [] {
      WithIdNone(ms[..|ms| - 1], id);
    }
  }

  lemma {:induction false} WithIdAll(ms: seq<Message>, id: string)
    requires forall i :: 0 <= i < |ms| ==> ms[i].requestId == id
    ensures WithId(ms, id) == ms
  {
    if ms != [] {
      WithIdAll(ms[..|ms| - 1], id);
    }
  }

  lemma FirstReplySnoc(ms: seq<Message>, m: Message)
    ensures FirstReply(ms + [m]) == if FirstReply(ms).Some? then FirstReply(ms)
                                    else if Deliverable(m) then Some(m) else None
  {
    Snoc(ms, m);
  }

  /** Later messages never replace the first reply. */
  lemma {:induction false} FirstReplyPrefix(ms: seq<Message>, ns: seq<Message>)
    ensures FirstReply(ms).Some? ==> FirstReply(ms + ns) == FirstReply(ms)
  {
    if ns == [] {
      assert ms + ns == ms;
    } else {
      var init, last := ns[..|ns| - 1], ns[|ns| - 1];
      FirstReplyPrefix(ms, init);
      assert ms + ns == (ms + init) + [last];
      FirstReplySnoc(ms + init, last);
    }
  }

  // ---------- What every reachable state satisfies ----------

  function CallCount(calls: seq<Call>, id: string): nat {
    if calls == [] then 0 else CallCount(calls[..|calls| - 1], id) + if calls[|calls| - 1].id == id then 1 else 0
  }

  function PostCount(posted: seq<Posted>, id: string): nat {
    if posted == [] then 0 else PostCount(posted[..|posted| - 1], id) + if posted[|posted| - 1].id == id then 1 else 0
  }

  /** The replies the server produced for a request: none before it is dispatched. */
  function RepliesTo(w: World, id: string): seq<Message> {
    if id in w.dispatched then Replies(w.routes, w.dispatched[id].request, w.dispatched[id].bodies) else []
  }

  /** The server's output reaches the client in order, and each request waits at most once upwards. */
  ghost predicate Channels(s: System) {
    var w := s.world;
    && w.routed + s.down == w.sent
    && (forall i :: 0 <= i < |w.sent| ==> w.sent[i].requestId in w.used)
    && (forall i :: 0 <= i < |s.up| ==> Pending(w, s.up[i]))
    && (forall i, j :: 0 <= i < j < |s.up| ==> s.up[i].requestId != s.up[j].requestId)
  }

  predicate Pending(w: World, m: Message) {
    && m.requestId != "" && m.requestId in w.issued && m.requestId !in w.dispatched
    && (m.requestId in w.requests ==> m == w.requests[m.requestId].message)
  }

  /** What the server wrote under a client's id is exactly the replies of that request's one dispatch. */
  ghost predicate Produced(w: World, id: string) {
    && (id in w.issued ==> id in w.used && id != "")
    && (id in w.requests ==> id in w.issued && w.requests[id].message.requestId == id)
    && (id in w.dispatched ==>
          && id in w.issued && w.dispatched[id].request.requestId == id
          && (id in w.requests ==> w.dispatched[id].request == w.requests[id].message))
    && (id in w.issued ==> WithId(w.sent, id) == RepliesTo(w, id))
  }

  /** A handler waits exactly while its request is neither answered nor timed out; the answer is the
      first reply that arrived; the handler is called once for it. */
  ghost predicate Waiting(w: World, id: string) {
    && (id in w.answered || id in w.timedOut ==> id in w.requests)
    && !(id in w.answered && id in w.timedOut)
    && (id in w.service.tables.responses <==> id in w.requests && id !in w.answered && id !in w.timedOut)
    && (id in w.service.tables.responses ==>
          && w.service.tables.responses[id] == w.requests[id].waiter
          && FirstReply(WithId(w.routed, id)) == None)
    && (id in w.answered ==> FirstReply(WithId(w.routed, id)) == Some(w.answered[id]))
    && CallCount(w.calls, id) == if id in w.answered then 1 else 0
  }

  /** The shared flag, the timer and the one posted callback of an asynchronous request. */
  ghost predicate Settled(w: World, id: string) {
    var v := w.service;
    && (id in v.fired || id in v.timers ==> id in w.requests && w.requests[id].waiter.Async?)
    && (id in v.timers ==> v.timers[id] == w.requests[id].waiter && w.requests[id].waiter.context !in v.dead)
    && (id in w.requests && w.requests[id].waiter.Async? ==>
          && (id in v.fired <==> id in w.answered || id in w.timedOut)
          && (w.requests[id].waiter.context !in v.dead ==> id in v.fired || id in v.timers))
    && PostCount(v.posted, id) <= (if id in v.fired then 1 else 0)
    && (PostCount(v.posted, id) == 1 ==> w.requests[id].waiter.hasCallback)
    && (id in v.fired && w.requests[id].waiter.hasCallback && w.requests[id].waiter.context !in v.dead ==>
          PostCount(v.posted, id) == 1)
  }

  /** The caught reply and the returned value of a blocking request. */
  ghost predicate Blocked(w: World, id: string) {
    && (id in w.service.got ==> IsOutcome(w, id, Replied(w.service.got[id])))
    && (id in w.requests && w.requests[id].waiter.Blocking? ==>
          && (id in w.answered ==> id in w.service.got)
          && (id in w.timedOut ==> id in w.returned))
    && (id in w.returned ==> IsOutcome(w, id, w.returned[id]))
  }

  /** The reply that answered the request, or its timeout. */
  predicate IsOutcome(w: World, id: string, o: Outcome) {
    match o
    case Replied(m) => id in w.answered && w.answered[id] == m
    case TimedOut => id in w.timedOut
  }

  ghost predicate Logs(w: World) {
    && (forall i :: 0 <= i < |w.calls| ==> IsOutcome(w, w.calls[i].id, Replied(w.calls[i].reply)))
    && (forall i :: 0 <= i < |w.service.posted| ==> IsOutcome(w, w.service.posted[i].id, w.service.posted[i].outcome))
  }

  ghost predicate At(w: World, id: string) {
    Produced(w, id) && Waiting(w, id) && Settled(w, id) && Blocked(w, id)
  }

  ghost predicate Inv(s: System) {
    Channels(s) && Logs(s.world) && forall id :: At(s.world, id)
  }

  // ---------- Every event keeps it, one request id at a time ----------

  lemma ChannelsServe(s: System, bodies: seq<Body>)
    requires Channels(s) && s.up != [] && At(s.world, s.up[0].requestId)
    ensures Channels(Next(s, Serve(bodies)))
  {
    var w, t, replies := s.world, Next(s, Serve(bodies)), Replies(s.world.routes, s.up[0], bodies);
    assert Pending(w, s.up[0]);
    assert w.routed + (s.down + replies) == (w.routed + s.down) + replies;
    forall i | 0 <= i < |t.up| ensures Pending(t.world, t.up[i]) {
      assert t.up[i] == s.up[i + 1] && Pending(w, s.up[i + 1]);
    }
  }

  lemma ChannelsSend(s: System, e: Event, m: Message)
    requires Channels(s) && At(s.world, m.requestId)
    requires (e.Send? && e.message == m && CanSend(s.world, m, e.waiter)) ||
             (e.SendPlain? && e.message == m && Fresh(s.world, m.requestId))
    ensures Channels(Next(s, e))
  {
    var w, t := s.world, Next(s, e);
    forall i | 0 <= i < |s.up| ensures Pending(t.world, s.up[i]) && s.up[i].requestId != m.requestId {
      assert Pending(w, s.up[i]);
    }
    assert Pending(t.world, m);
  }

  lemma ChannelsPush(s: System, m: Message)
    requires Channels(s) && Fresh(s.world, m.requestId)
    ensures Channels(Next(s, Push(m)))
  {
    var w, t := s.world, Next(s, Push(m));
    assert w.routed + (s.down + [m]) == (w.routed + s.down) + [m];
    forall i | 0 <= i < |s.up| ensures Pending(t.world, s.up[i]) {
      assert Pending(w, s.up[i]);
    }
  }

  lemma ChannelsReceive(s: System)
    requires Channels(s) && s.down != []
    ensures Channels(Next(s, Receive))
  {
    var w, t := s.world, Next(s, Receive);
    assert (w.routed + [s.down[0]]) + s.down[1..] == w.routed + s.down;
    ChannelsSame(s, t.world);
  }

  /** Nothing the channels depend on changed, apart from what the client has read. */
  lemma ChannelsSame(s: System, t: World)
    requires Channels(s)
    requires t.sent == s.world.sent && t.used == s.world.used && t.issued == s.world.issued
    requires t.dispatched == s.world.dispatched && t.requests == s.world.requests
    ensures forall i :: 0 <= i < |t.sent| ==> t.sent[i].requestId in t.used
    ensures forall i :: 0 <= i < |s.up| ==> Pending(t, s.up[i])
  {
    forall i | 0 <= i < |s.up| ensures Pending(t, s.up[i]) {
      assert Pending(s.world, s.up[i]);
    }
  }

  lemma ChannelsNext(s: System, e: Event)
    requires Inv(s)
    ensures Channels(Next(s, e))
  {
    hide Waiting, Settled, Blocked, Logs, WithId, RepliesTo, Replies;
    var w, t := s.world, Next(s, e);
    match e {
      case Send(m, waiter, _) => if CanSend(w, m, waiter) { assert At(w, m.requestId); ChannelsSend(s, e, m); }
      case SendPlain(m) => if Fresh(w, m.requestId) { assert At(w, m.requestId); ChannelsSend(s, e, m); }
      case Serve(bodies) => if s.up != [] { assert At(w, s.up[0].requestId); ChannelsServe(s, bodies); }
      case Push(m) => if Fresh(w, m.requestId) { ChannelsPush(s, m); }
      case Receive => if s.down != [] { ChannelsReceive(s); }
      case _ => ChannelsSame(s, t.world);
    }
  }

  lemma ProducedNext(s: System, e: Event, id: string)
    requires Channels(s) && At(s.world, id)
    ensures Produced(Next(s, e).world, id)
  {
    hide Waiting, Settled, Blocked, Channels, WithId, RepliesTo;
    var w := s.world;
    match e {
      case Send(m, waiter, _) => if CanSend(w, m, waiter) { ProducedSend(s, m, id); }
      case SendPlain(m) => if Fresh(w, m.requestId) { ProducedSend(s, m, id); }
      case Push(m) => if Fresh(w, m.requestId) { ProducedPush(w, m, id); }
      case Serve(bodies) => if s.up != [] { ProducedServe(s, bodies, id); }
      case _ => ProducedSame(w, Next(s, e).world, id);
    }
  }

  lemma ProducedSame(w: World, t: World, id: string)
    requires Produced(w, id)
    requires t.used == w.used && t.issued == w.issued && t.requests == w.requests && t.dispatched == w.dispatched
    requires t.sent == w.sent && t.routes == w.routes
    ensures Produced(t, id)
  {
  }

  lemma ProducedSend(s: System, m: Message, id: string)
    requires Channels(s) && Produced(s.world, id) && Fresh(s.world, m.requestId)
    ensures Produced(BeginPlain(s.world, m), id)
    ensures forall waiter :: Produced(BeginRequest(s.world, m, waiter), id)
  {
    if m.requestId == id {
      WithIdNone(s.world.sent, id);
    }
  }

  lemma ProducedPush(w: World, m: Message, id: string)
    requires Produced(w, id) && Fresh(w, m.requestId)
    ensures Produced(PushOne(w, m), id)
  {
    WithIdSnoc(w.sent, m, id);
    assert WithId(w.sent, id) + [] == WithId(w.sent, id);
  }

  lemma ProducedServe(s: System, bodies: seq<Body>, id: string)
    requires Channels(s) && s.up != [] && Produced(s.world, id)
    ensures Produced(Dispatch(s.world, s.up[0], bodies), id)
  {
    var w, m := s.world, s.up[0];
    var replies := Replies(w.routes, m, bodies);
    assert Pending(w, m);
    WithIdAppend(w.sent, replies, id);
    if id == m.requestId {
      WithIdAll(replies, id);
    } else if id in w.issued {
      IdsOfReplies(w, m, bodies, id);
      assert WithId(w.sent, id) + [] == WithId(w.sent, id);
    }
  }

  lemma IdsOfReplies(w: World, m: Message, bodies: seq<Body>, id: string)
    requires m.requestId != "" && m.requestId != id
    ensures WithId(Replies(w.routes, m, bodies), id) == []
  {
    WithIdNone(Replies(w.routes, m, bodies), id);
  }

  lemma NothingRouted(s: System, id: string)
    requires Channels(s) && id !in s.world.used
    ensures WithId(s.world.routed, id) == []
  {
    var w := s.world;
    forall i | 0 <= i < |w.routed| ensures w.routed[i].requestId != id {
      assert w.routed[i] == w.sent[i];
    }
    WithIdNone(w.routed, id);
  }

  lemma FirstReplyReceived(routed: seq<Message>, m: Message, id: string)
    ensures FirstReply(WithId(routed + [m], id)) ==
            if m.requestId == id && FirstReply(WithId(routed, id)).None? && Deliverable(m) then Some(m)
            else FirstReply(WithId(routed, id))
  {
    WithIdSnoc(routed, m, id);
    if m.requestId == id {
      FirstReplySnoc(WithId(routed, id), m);
    } else {
      assert WithId(routed, id) + [] == WithId(routed, id);
    }
  }

  lemma CallSnoc(calls: seq<Call>, c: Call, id: string)
    ensures CallCount(calls + [c], id) == CallCount(calls, id) + if c.id == id then 1 else 0
  {
    Snoc(calls, c);
  }

  lemma TablesAfter(w: World, m: Message)
    ensures ReceiveOne(w, m).service.tables == Route(w.service.tables, m).1
  {
  }

  lemma WaitingReceive(w: World, m: Message, id: string)
    requires Produced(w, id) && Waiting(w, id)
    ensures Waiting(ReceiveOne(w, m), id)
  {
    var t := ReceiveOne(w, m);
    FirstReplyReceived(w.routed, m, id);
    CallSnoc(w.calls, Call(m.requestId, m), id);
    TablesAfter(w, m);
    RouteTakesOnlyItsOwn(w.service.tables, m, id);
    ReceiveRecords(w, m, id);
    WaitingAfter(w, t, m, id);
  }

  /** Whose response handler a message calls, if any. */
  predicate Calls(t: Tables, m: Message, id: string) {
    m.requestId == id && Route(t, m).0.ToWaiter?
  }

  lemma ReceiveRecords(w: World, m: Message, id: string)
    ensures var t := ReceiveOne(w, m); var called := Calls(w.service.tables, m, id);
      && t.requests == w.requests && t.timedOut == w.timedOut && t.returned == w.returned && t.routed == w.routed + [m]
      && (called ==> id in t.answered && t.answered[id] == m)
      && (!called ==>
            (id in t.answered <==> id in w.answered) && (id in w.answered ==> t.answered[id] == w.answered[id]))
      && CallCount(t.calls, id) == CallCount(w.calls, id) + if called then 1 else 0
  {
    var d := Route(w.service.tables, m).0;
    RecordEffect(w, m, d, id);
    assert d.ToWaiter? ==> d.id == m.requestId;
  }

  lemma RecordEffect(w: World, m: Message, d: Delivery, id: string)
    ensures var t := Record(w, m, d); var called := d.ToWaiter? && d.id == id;
      && t.requests == w.requests && t.timedOut == w.timedOut && t.returned == w.returned && t.routed == w.routed + [m]
      && (called ==> id in t.answered && t.answered[id] == m)
      && (!called ==>
            (id in t.answered <==> id in w.answered) && (id in w.answered ==> t.answered[id] == w.answered[id]))
      && CallCount(t.calls, id) == CallCount(w.calls, id) + if called then 1 else 0
  {
    if d.ToWaiter? {
      CallSnoc(w.calls, Call(d.id, m), id);
    }
  }

  lemma WaitingAfter(w: World, t: World, m: Message, id: string)
    requires Produced(w, id) && Waiting(w, id)
    requires t.requests == w.requests && t.timedOut == w.timedOut
    requires id in t.service.tables.responses ==>
      id in w.service.tables.responses && t.service.tables.responses[id] == w.service.tables.responses[id]
    requires var called := id in w.service.tables.responses && Deliverable(m) && m.requestId == id;
      && (id in w.service.tables.responses ==> (id in t.service.tables.responses <==> !called))
      && (called ==> id in t.answered && t.answered[id] == m)
      && (!called ==>
            (id in t.answered <==> id in w.answered) && (id in w.answered ==> t.answered[id] == w.answered[id]))
      && CallCount(t.calls, id) == CallCount(w.calls, id) + if called then 1 else 0
    requires FirstReply(WithId(t.routed, id)) ==
      if m.requestId == id && FirstReply(WithId(w.routed, id)).None? && Deliverable(m) then Some(m)
      else FirstReply(WithId(w.routed, id))
    ensures Waiting(t, id)
  {
  }

  lemma WaitingNext(s: System, e: Event, id: string)
    requires Channels(s) && At(s.world, id)
    ensures Waiting(Next(s, e).world, id)
  {
    var w := s.world;
    if e.Receive? && s.down != [] {
      WaitingReceive(w, s.down[0], id);
    }
    if e.Send? && e.message.requestId == id && id !in w.used {
      NothingRouted(s, id);
    }
  }

  lemma PostSnoc(posted: seq<Posted>, p: Posted, id: string)
    ensures PostCount(posted + [p], id) == PostCount(posted, id) + if p.id == id then 1 else 0
  {
    Snoc(posted, p);
  }

  lemma AcceptEffect(s: Service, m: Message, id: string)
    ensures var t := Accept(s, m); var called := Calls(s.tables, m, id);
      && t.timers == s.timers && t.dead == s.dead
      && (called ==> id in s.tables.responses)
      && (id in t.fired <==> id in s.fired || (called && s.tables.responses[id].Async?))
      && (called && s.tables.responses[id].Blocking? ==> id in t.got && t.got[id] == m)
      && (!(called && s.tables.responses[id].Blocking?) ==>
            (id in t.got <==> id in s.got) && (id in s.got ==> t.got[id] == s.got[id]))
      && PostCount(t.posted, id) == PostCount(s.posted, id)
           + if called && s.tables.responses[id].Async? && id !in s.fired && s.tables.responses[id].hasCallback
                && s.tables.responses[id].context !in s.dead then 1 else 0
  {
    var (d, tables) := Route(s.tables, m);
    if d.ToWaiter? {
      InvokeEffect(s.(tables := tables), m, d.waiter, id);
    }
  }

  lemma InvokeEffect(s: Service, m: Message, waiter: Waiter, id: string)
    ensures var t := Invoke(s, m.requestId, waiter, m); var called := m.requestId == id;
      && t.timers == s.timers && t.dead == s.dead
      && (id in t.fired <==> id in s.fired || (called && waiter.Async?))
      && (called && waiter.Blocking? ==> id in t.got && t.got[id] == m)
      && (!(called && waiter.Blocking?) ==>
            (id in t.got <==> id in s.got) && (id in s.got ==> t.got[id] == s.got[id]))
      && PostCount(t.posted, id) == PostCount(s.posted, id)
           + if called && waiter.Async? && id !in s.fired && waiter.hasCallback
                && waiter.context !in s.dead then 1 else 0
  {
    PostSnoc(s.posted, Posted(m.requestId, Replied(m)), id);
    assert s.posted + [] == s.posted;
  }

  lemma SettledReceive(w: World, m: Message, id: string)
    requires Waiting(w, id) && Settled(w, id) && Blocked(w, id)
    ensures Settled(ReceiveOne(w, m), id) && Blocked(ReceiveOne(w, m), id)
  {
    AcceptEffect(w.service, m, id);
    ReceiveRecords(w, m, id);
    SettledAfter(w, ReceiveOne(w, m), m, Calls(w.service.tables, m, id), id);
  }

  lemma SettledAfter(w: World, t: World, m: Message, called: bool, id: string)
    requires Waiting(w, id) && Settled(w, id) && Blocked(w, id)
    requires t.requests == w.requests && t.timedOut == w.timedOut && t.returned == w.returned
    requires called ==> id in t.answered && t.answered[id] == m && id in w.service.tables.responses
    requires !called ==>
               (id in t.answered <==> id in w.answered) && (id in w.answered ==> t.answered[id] == w.answered[id])
    requires t.service.timers == w.service.timers && t.service.dead == w.service.dead
    requires id in t.service.fired <==> id in w.service.fired || (called && w.service.tables.responses[id].Async?)
    requires called && w.service.tables.responses[id].Blocking? ==> id in t.service.got && t.service.got[id] == m
    requires !(called && w.service.tables.responses[id].Blocking?) ==>
      && (id in t.service.got <==> id in w.service.got)
      && (id in w.service.got ==> t.service.got[id] == w.service.got[id])
    requires PostCount(t.service.posted, id) == PostCount(w.service.posted, id)
      + if called && w.service.tables.responses[id].Async? && id !in w.service.fired
           && w.service.tables.responses[id].hasCallback && w.service.tables.responses[id].context !in w.service.dead
        then 1 else 0
    ensures Settled(t, id) && Blocked(t, id)
  {
  }

  lemma SettledTimer(w: World, timer: string, id: string)
    requires Waiting(w, id) && Settled(w, id) && timer in w.service.timers
    ensures Settled(FireTimer(w, timer), id)
  {
    PostSnoc(w.service.posted, Posted(timer, TimedOut), id);
    assert w.service.posted + [] == w.service.posted;
  }

  lemma SettledNext(s: System, e: Event, id: string)
    requires At(s.world, id)
    ensures Settled(Next(s, e).world, id)
  {
    var w := s.world;
    match e {
      case Receive => if s.down != [] { SettledReceive(w, s.down[0], id); }
      case Timer(timer) => if timer in w.service.timers { SettledTimer(w, timer, id); }
      case _ =>
    }
  }

  lemma BlockedNext(s: System, e: Event, id: string)
    requires At(s.world, id)
    ensures Blocked(Next(s, e).world, id)
  {
    if e.Receive? && s.down != [] {
      SettledReceive(s.world, s.down[0], id);
    }
  }

  /** An outcome, once reached, stays. */
  lemma OutcomeStays(s: System, e: Event, id: string, o: Outcome)
    requires Waiting(s.world, id) && IsOutcome(s.world, id, o)
    ensures IsOutcome(Next(s, e).world, id, o)
  {
  }

  lemma LogsNext(s: System, e: Event)
    requires Inv(s)
    ensures Logs(Next(s, e).world)
  {
    var w, t := s.world, Next(s, e).world;
    forall i | 0 <= i < |w.calls| ensures IsOutcome(t, w.calls[i].id, Replied(w.calls[i].reply)) {
      assert At(w, w.calls[i].id);
      OutcomeStays(s, e, w.calls[i].id, Replied(w.calls[i].reply));
    }
    forall i | 0 <= i < |w.service.posted| ensures IsOutcome(t, w.service.posted[i].id, w.service.posted[i].outcome) {
      assert At(w, w.service.posted[i].id);
      OutcomeStays(s, e, w.service.posted[i].id, w.service.posted[i].outcome);
    }
  }

  lemma InvNext(s: System, e: Event)
    requires Inv(s)
    ensures Inv(Next(s, e))
  {
    ChannelsNext(s, e);
    LogsNext(s, e);
    forall id ensures At(Next(s, e).world, id) {
      assert At(s.world, id);
      ProducedNext(s, e, id);
      WaitingNext(s, e, id);
      SettledNext(s, e, id);
      BlockedNext(s, e, id);
    }
  }

  lemma {:induction false} InvRun(routes: Routes, events: seq<Event>)
    ensures Inv(Run(routes, events))
  {
    if events != [] {
      InvRun(routes, events[..|events| - 1]);
      InvNext(Run(routes, events[..|events| - 1]), events[|events| - 1]);
    }
  }

  // ---------- Main results, for every run ----------

  /** The replies a request got so far, as the client reads them, are a first stretch of those produced. */
  lemma RoutedIsPrefix(s: System, id: string)
    requires Inv(s) && id in s.world.issued
    ensures RepliesTo(s.world, id) == WithId(s.world.routed, id) + WithId(s.down, id)
  {
    assert At(s.world, id);
    WithIdAppend(s.world.routed, s.down, id);
  }

  /** What a handler decided to answer with: the first of its replies that is neither Invalid nor an event. */
  ghost predicate IsFirstAnswer(m: Message, bodies: seq<Body>) {
    exists i ::
      && 0 <= i < |bodies| && Answers(bodies[i]) && (forall j :: 0 <= j < i ==> !Answers(bodies[j]))
      && m.command == bodies[i].command && m.status == bodies[i].status && m.payload == bodies[i].payload
  }

  lemma {:induction false} FirstReplyAt(ms: seq<Message>) returns (i: nat)
    requires FirstReply(ms).Some?
    ensures i < |ms| && FirstReply(ms) == Some(ms[i]) && Deliverable(ms[i])
    ensures forall j :: 0 <= j < i ==> !Deliverable(ms[j])
  {
    var init := ms[..|ms| - 1];
    if FirstReply(init).Some? {
      i := FirstReplyAt(init);
      assert forall j :: 0 <= j <= i ==> init[j] == ms[j];
    } else {
      i := |ms| - 1;
      FirstReplyExists(init);
      assert forall j :: 0 <= j < i ==> init[j] == ms[j];
    }
  }

  lemma FirstReplyIsTheAnswer(routes: Routes, m: Message, bodies: seq<Body>)
    requires FirstReply(Replies(routes, m, bodies)).Some?
    ensures IsFirstAnswer(FirstReply(Replies(routes, m, bodies)).value, bodies)
  {
    hide Replies, FirstReply;
    var ms := Replies(routes, m, bodies);
    RepliesAre(routes, m, bodies);
    var i := FirstReplyAt(ms);
    assert forall j :: 0 <= j <= i ==> (Deliverable(ms[j]) <==> Answers(bodies[j]));
    assert Answers(bodies[i]);
  }

  /** An answered request was dispatched as it was sent, and its answer is what the handler first answered with:
      the same command, status and payload. */
  lemma AnsweredAsDecided(routes: Routes, events: seq<Event>, id: string)
    requires id in Run(routes, events).world.answered
    ensures var w := Run(routes, events).world;
      && id in w.requests && id in w.dispatched && w.dispatched[id].request == w.requests[id].message
      && FirstReply(RepliesTo(w, id)) == Some(w.answered[id]) && w.answered[id].requestId == id
      && IsFirstAnswer(w.answered[id], w.dispatched[id].bodies)
  {
    InvRun(routes, events);
    var s := Run(routes, events);
    var w := s.world;
    assert At(w, id);
    RoutedIsPrefix(s, id);
    FirstReplyPrefix(WithId(w.routed, id), WithId(s.down, id));
    FirstReplyWithId(w.routed, id);
    FirstReplyIsTheAnswer(w.routes, w.dispatched[id].request, w.dispatched[id].bodies);
  }

  /** Whatever else is in flight, a response handler is only ever called with the reply its own request got:
      the first deliverable one the server produced when it dispatched exactly that request, with the command,
      status and payload the server's handler answered with. */
  lemma HandlersGetTheirOwnReply(routes: Routes, events: seq<Event>, k: nat)
    requires k < |Run(routes, events).world.calls|
    ensures var w := Run(routes, events).world; var call := w.calls[k];
      && call.id in w.requests && call.id in w.dispatched
      && w.dispatched[call.id].request == w.requests[call.id].message
      && call.reply.requestId == call.id
      && FirstReply(RepliesTo(w, call.id)) == Some(call.reply)
      && IsFirstAnswer(call.reply, w.dispatched[call.id].bodies)
      && (forall j :: 0 <= j < |w.calls| && j != k ==> w.calls[j].id != call.id)
  {
    InvRun(routes, events);
    var w, id := Run(routes, events).world, Run(routes, events).world.calls[k].id;
    assert At(w, id);
    assert IsOutcome(w, id, Replied(w.calls[k].reply));
    AnsweredAsDecided(routes, events, id);
    forall j | 0 <= j < |w.calls| && j != k ensures w.calls[j].id != id {
      if w.calls[j].id == id {
        CountTwice(w.calls, if j < k then j else k, if j < k then k else j, id);
      }
    }
  }

  lemma {:induction false} FirstReplyWithId(ms: seq<Message>, id: string)
    ensures FirstReply(WithId(ms, id)).Some? ==> FirstReply(WithId(ms, id)).value.requestId == id
  {
    if ms != [] {
      FirstReplyWithId(ms[..|ms| - 1], id);
      assert ms == ms[..|ms| - 1] + [ms[|ms| - 1]];
      FirstReplyReceived(ms[..|ms| - 1], ms[|ms| - 1], id);
    }
  }

  lemma {:induction false} CountTwice(calls: seq<Call>, i: nat, j: nat, id: string)
    requires i < j < |calls| && calls[i].id == id && calls[j].id == id
    ensures CallCount(calls, id) >= 2
  {
    var init := calls[..|calls| - 1];
    if j < |calls| - 1 {
      CountTwice(init, i, j, id);
    } else {
      CountOnce(init, i, id);
    }
  }

  lemma {:induction false} CountOnce(calls: seq<Call>, i: nat, id: string)
    requires i < |calls| && calls[i].id == id
    ensures CallCount(calls, id) >= 1
  {
    if i < |calls| - 1 {
      CountOnce(calls[..|calls| - 1], i, id);
    }
  }

  /** A handler waits exactly while its request is neither answered nor timed out; short of a timeout, answered
      means exactly that a deliverable reply was read, and the first one is the answer; the handler of an answered
      request was called once, any other's never. */
  ghost predicate TableExact(w: World, id: string) {
    && (id in w.service.tables.responses <==> id in w.requests && id !in w.answered && id !in w.timedOut)
    && !(id in w.answered && id in w.timedOut)
    && (id in w.answered || id in w.timedOut ==> id in w.requests)
    && (id in w.requests && id !in w.timedOut ==> (id in w.answered <==> FirstReply(WithId(w.routed, id)).Some?))
    && (id in w.answered ==> FirstReply(WithId(w.routed, id)) == Some(w.answered[id]))
    && CallCount(w.calls, id) == if id in w.answered then 1 else 0
  }

  lemma TableIsExact(routes: Routes, events: seq<Event>, id: string)
    ensures TableExact(Run(routes, events).world, id)
  {
    InvRun(routes, events);
    assert At(Run(routes, events).world, id);
  }

  /** Neither an event nor any other pushed message ever takes or calls a response handler. */
  lemma PushesNeverConsume(routes: Routes, events: seq<Event>)
    requires var s := Run(routes, events);
      s.down != [] && (IsEventCommand(s.down[0].command) || s.down[0].requestId !in s.world.issued)
    ensures var s := Run(routes, events); var t := Next(s, Receive);
      t.world.service.tables == s.world.service.tables && t.world.calls == s.world.calls
  {
    hide Run, FirstReply, WithId, Settled, Blocked, RepliesTo, CallCount, PostCount;
    InvRun(routes, events);
    var s := Run(routes, events);
    assert At(s.world, s.down[0].requestId);
  }

  /** A callback is posted at most once, and never without one; while its context lives it has been posted exactly when
      the request was answered or timed out, and until then the timeout is still armed. */
  ghost predicate PostedOnce(w: World, id: string) {
    id in w.requests && w.requests[id].waiter.Async? ==>
      var waiter := w.requests[id].waiter;
      && PostCount(w.service.posted, id) <= (if waiter.hasCallback then 1 else 0)
      && (waiter.context !in w.service.dead ==>
            && (id in w.service.tables.responses ==> id in w.service.timers)
            && (waiter.hasCallback ==>
                  (PostCount(w.service.posted, id) == 1 <==> id in w.answered || id in w.timedOut)))
  }

  lemma CallbackPostedOnce(routes: Routes, events: seq<Event>, id: string)
    ensures PostedOnce(Run(routes, events).world, id)
  {
    InvRun(routes, events);
    assert At(Run(routes, events).world, id);
  }

  /** Once its context is destroyed a request posts nothing any more, however long the run goes on. */
  lemma {:induction false} DeadContextHearsNothing(routes: Routes, before: seq<Event>, later: seq<Event>, id: string)
    requires var w := Run(routes, before).world;
      id in w.requests && w.requests[id].waiter.Async? && w.requests[id].waiter.context in w.service.dead
    ensures var w, t := Run(routes, before).world, After(Run(routes, before), later).world;
      && PostCount(t.service.posted, id) == PostCount(w.service.posted, id)
      && id in t.requests && t.requests[id] == w.requests[id] && w.service.dead <= t.service.dead
    ensures Inv(After(Run(routes, before), later))
  {
    hide Next, Run, PostCount;
    InvRun(routes, before);
    if later != [] {
      var init, e := later[..|later| - 1], later[|later| - 1];
      DeadContextHearsNothing(routes, before, init, id);
      var s := After(Run(routes, before), init);
      InvNext(s, e);
      assert At(s.world, id);
      DeadStep(s, e, id);
    }
  }

  lemma DeadStep(s: System, e: Event, id: string)
    requires At(s.world, id)
    requires id in s.world.requests && s.world.requests[id].waiter.Async?
    requires s.world.requests[id].waiter.context in s.world.service.dead
    ensures var w, t := s.world, Next(s, e).world;
      && PostCount(t.service.posted, id) == PostCount(w.service.posted, id)
      && id in t.requests && t.requests[id] == w.requests[id] && w.service.dead <= t.service.dead
  {
    var w := s.world;
    hide WithId, FirstReply, CallCount, PostCount, RepliesTo, Replies;
    if e.Receive? && s.down != [] {
      AcceptEffect(w.service, s.down[0], id);
      ReceiveRecords(w, s.down[0], id);
    } else if e.Timer? && e.id in w.service.timers {
      PostSnoc(w.service.posted, Posted(e.id, TimedOut), id);
      assert w.service.posted + [] == w.service.posted;
    }
  }

  /** What was posted, and what a blocking call returned, is the request's answer, as the server's handler decided
      it, or its timeout. */
  lemma OutcomesAreTrue(routes: Routes, events: seq<Event>, id: string, o: Outcome)
    requires var w := Run(routes, events).world;
      Posted(id, o) in w.service.posted || (id in w.returned && w.returned[id] == o)
    ensures IsOutcome(Run(routes, events).world, id, o)
    ensures var w := Run(routes, events).world;
      o.Replied? ==>
        && id in w.requests && id in w.dispatched && w.dispatched[id].request == w.requests[id].message
        && o.reply.requestId == id && IsFirstAnswer(o.reply, w.dispatched[id].bodies)
  {
    InvRun(routes, events);
    var w := Run(routes, events).world;
    assert At(w, id);
    if id in w.answered { AnsweredAsDecided(routes, events, id); }
    if Posted(id, o) in w.service.posted {
      var i :| 0 <= i < |w.service.posted| && w.service.posted[i] == Posted(id, o);
      assert IsOutcome(w, w.service.posted[i].id, w.service.posted[i].outcome);
    }
  }

  /** What the caller is given of a handler's answer: its status and payload, and the error text if it is just one. */
  predicate Conveys(r: Response, b: Body) {
    && r.status == b.status && r.payload == b.payload && (r.IsSuccess() <==> b.status == 200)
    && ("error" in b.payload && b.payload["error"].String? ==> r.errorMessage == b.payload["error"].text)
    && ("error" !in b.payload ==> r.errorMessage == "")
  }

  /** End to end: a caller, blocking or not, is given what the server's handler answered its request with, error text
      included, or is told of a timeout that really happened. */
  lemma CallerIsGivenTheAnswer(routes: Routes, events: seq<Event>, id: string, o: Outcome)
    requires var w := Run(routes, events).world;
      Posted(id, o) in w.service.posted || (id in w.returned && w.returned[id] == o)
    ensures GivenTheAnswer(Run(routes, events).world, id, ResponseOf(o))
  {
    OutcomesAreTrue(routes, events, id, o);
    Given(Run(routes, events).world, id, o);
  }

  ghost predicate GivenTheAnswer(w: World, id: string, r: Response) {
    if r.ok then
      id in w.dispatched
      && exists i ::
           && 0 <= i < |w.dispatched[id].bodies| && Answers(w.dispatched[id].bodies[i])
           && (forall j :: 0 <= j < i ==> !Answers(w.dispatched[id].bodies[j]))
           && Conveys(r, w.dispatched[id].bodies[i])
    else id in w.timedOut && r.errorMessage == "Request timed out"
  }

  lemma Given(w: World, id: string, o: Outcome)
    requires IsOutcome(w, id, o)
    requires o.Replied? ==> id in w.dispatched && IsFirstAnswer(o.reply, w.dispatched[id].bodies)
    ensures GivenTheAnswer(w, id, ResponseOf(o))
  {
    if o.Replied? {
      var bodies := w.dispatched[id].bodies;
      var i :| && 0 <= i < |bodies| && Answers(bodies[i]) && (forall j :: 0 <= j < i ==> !Answers(bodies[j]))
        && o.reply.command == bodies[i].command && o.reply.status == bodies[i].status
        && o.reply.payload == bodies[i].payload;
      assert Conveys(ResponseOf(o), bodies[i]);
    }
  }

  /** A request whose context was destroyed has no timer left: only its reply can take it off the table. */
  lemma AbandonedWaitsForItsReply(routes: Routes, events: seq<Event>, e: Event, id: string)
    requires var w := Run(routes, events).world;
      && id in w.service.tables.responses && id in w.requests && w.requests[id].waiter.Async?
      && w.requests[id].waiter.context in w.service.dead
    ensures id !in Run(routes, events).world.service.timers
    ensures var s := Run(routes, events);
      id !in Next(s, e).world.service.tables.responses <==>
      e.Receive? && s.down != [] && s.down[0].requestId == id && Deliverable(s.down[0])
  {
    InvRun(routes, events);
    assert At(Run(routes, events).world, id);
    AbandonedStep(Run(routes, events), e, id);
  }

  lemma AbandonedStep(s: System, e: Event, id: string)
    requires Produced(s.world, id) && id in s.world.service.tables.responses && id in s.world.requests
    requires s.world.requests[id].waiter.Async? && id !in s.world.service.timers
    ensures id !in Next(s, e).world.service.tables.responses <==>
            e.Receive? && s.down != [] && s.down[0].requestId == id && Deliverable(s.down[0])
  {
    if e.Receive? && s.down != [] {
      TablesAfter(s.world, s.down[0]);
      RouteTakesOnlyItsOwn(s.world.service.tables, s.down[0], id);
    }
  }

  lemma {:induction false} TimedOutStays(s: System, events: seq<Event>, id: string)
    requires Inv(s) && id in s.world.timedOut
    ensures Inv(After(s, events)) && id in After(s, events).world.timedOut
  {
    if events != [] {
      var init, e := events[..|events| - 1], events[|events| - 1];
      TimedOutStays(s, init, id);
      InvNext(After(s, init), e);
      assert At(After(s, init).world, id);
      OutcomeStays(After(s, init), e, id, TimedOut);
    }
  }

  function After(s: System, events: seq<Event>): System {
    if events == [] then s else Next(After(s, events[..|events| - 1]), events[|events| - 1])
  }

  /** However long the run goes on, a reply that comes after the timeout reaches nobody. */
  lemma LateReplyReachesNobody(routes: Routes, before: seq<Event>, later: seq<Event>, id: string)
    requires id in Run(routes, before).world.timedOut
    ensures var w := After(Run(routes, before), later).world;
      CallCount(w.calls, id) == 0 && id !in w.service.tables.responses && id !in w.answered
  {
    InvRun(routes, before);
    TimedOutStays(Run(routes, before), later, id);
    assert At(After(Run(routes, before), later).world, id);
  }

  /** When nothing is in flight, a request still waits exactly if it did not time out and the server
      produced no deliverable reply for it. */
  lemma WhoStillWaits(routes: Routes, events: seq<Event>, id: string)
    requires Run(routes, events).down == [] && id in Run(routes, events).world.requests
    ensures var w := Run(routes, events).world;
      id in w.service.tables.responses <==> id !in w.timedOut && FirstReply(RepliesTo(w, id)).None?
    ensures var w := Run(routes, events).world;
      id !in w.timedOut ==> (id in w.answered <==> FirstReply(RepliesTo(w, id)).Some?)
  {
    InvRun(routes, events);
    var s := Run(routes, events);
    assert At(s.world, id);
    RoutedIsPrefix(s, id);
    assert WithId(s.world.routed, id) + [] == WithId(s.world.routed, id);
  }

  lemma {:induction false} FirstReplyExists(ms: seq<Message>)
    ensures FirstReply(ms).Some? <==> exists i :: 0 <= i < |ms| && Deliverable(ms[i])
  {
    if ms != [] {
      var n := |ms| - 1;
      FirstReplyExists(ms[..n]);
      Snoc(ms[..n], ms[n]);
      assert ms == ms[..n] + [ms[n]];
      FirstReplySnoc(ms[..n], ms[n]);
      assert forall i :: 0 <= i < n ==> ms[..n][i] == ms[i];
    }
  }

  predicate Answers(b: Body) {
    b.command != INVALID && !IsEventCommand(b.command)
  }

  /** A dispatch produces something deliverable exactly if its command is served and the handler sends at least one
      reply that is neither Invalid nor an event. */
  lemma DeliverableIfAnswered(routes: Routes, m: Message, bodies: seq<Body>)
    ensures FirstReply(Replies(routes, m, bodies)).Some? <==>
            m.IsValid() && routes.Serve(m.command) && exists b :: b in bodies && Answers(b)
  {
    var ms := Replies(routes, m, bodies);
    FirstReplyExists(ms);
    if m.IsValid() && routes.Serve(m.command) {
      forall i | 0 <= i < |bodies| ensures Deliverable(ms[i]) <==> Answers(bodies[i]) {
        StampAt(m.requestId, bodies, i);
      }
      if exists b :: b in bodies && Answers(b) {
        var b :| b in bodies && Answers(b);
        var i :| 0 <= i < |bodies| && bodies[i] == b;
        assert Deliverable(ms[i]);
      }
      if i :| 0 <= i < |ms| && Deliverable(ms[i]) {
        assert bodies[i] in bodies && Answers(bodies[i]);
      }
    }
  }

  /** With nothing in flight, a request that did not time out is answered exactly if it was dispatched to a handler
      that sent a reply which is neither Invalid nor an event. */
  lemma WhoIsAnswered(routes: Routes, events: seq<Event>, id: string)
    requires var s := Run(routes, events); s.down == [] && id in s.world.requests && id !in s.world.timedOut
    ensures var w := Run(routes, events).world;
      id in w.answered <==>
        id in w.dispatched
        && var d := w.dispatched[id];
           d.request.IsValid() && w.routes.Serve(d.request.command) && exists b :: b in d.bodies && Answers(b)
  {
    WhoStillWaits(routes, events, id);
    var w := Run(routes, events).world;
    if id in w.dispatched {
      DeliverableIfAnswered(w.routes, w.dispatched[id].request, w.dispatched[id].bodies);
    }
  }

  /** A command nobody serves is answered with an Invalid message, which the client drops: such a request
      is never answered and can only time out. */
  lemma UnservedOnlyTimesOut(routes: Routes, events: seq<Event>, id: string)
    requires id in Run(routes, events).world.requests
    requires !Run(routes, events).world.routes.Serve(Run(routes, events).world.requests[id].message.command)
    ensures id !in Run(routes, events).world.answered
  {
    InvRun(routes, events);
    var s := Run(routes, events);
    var w := s.world;
    assert At(w, id);
    var replies := RepliesTo(w, id);
    if replies != [] {
      assert replies[..|replies| - 1] == [];
    }
    assert FirstReply(replies) == None;
    RoutedIsPrefix(s, id);
    FirstReplyPrefix(WithId(w.routed, id), WithId(s.down, id));
  }

  // ---------- Long-lived handlers, for every run ----------

  /** The handler subscribed last to a command's events, or to its other messages, and not unsubscribed since. */
  function Listener(events: seq<Event>, event: bool, command: Command): Option<string> {
    if events == [] then None
    else
      var before := Listener(events[..|events| - 1], event, command);
      match events[|events| - 1]
      case Subscribe(e, c, handler) => if e == event && c == command then Some(handler) else before
      case Unsubscribe(e, c) => if e == event && c == command then None else before
      case _ => before
  }

  lemma {:induction false} ListenersRun(routes: Routes, events: seq<Event>, c: Command)
    ensures var t := Run(routes, events).world.service.tables;
      && Listener(events, true, c) == (if c in t.events then Some(t.events[c]) else None)
      && Listener(events, false, c) == (if c in t.commands then Some(t.commands[c]) else None)
  {
    if events != [] {
      var init, e := events[..|events| - 1], events[|events| - 1];
      ListenersRun(routes, init, c);
      ListenersNext(Run(routes, init), e, c);
    }
  }

  lemma ListenersNext(s: System, e: Event, c: Command)
    ensures var t, u := s.world.service.tables, Next(s, e).world.service.tables;
      match e
      case Subscribe(event, command, handler) =>
        u == if event then t.(events := t.events[command := handler])
             else t.(commands := t.commands[command := handler])
      case Unsubscribe(event, command) =>
        u == if event then t.(events := t.events - {command}) else t.(commands := t.commands - {command})
      case _ => u.events == t.events && u.commands == t.commands
  {
    if e.Receive? && s.down != [] {
      TablesAfter(s.world, s.down[0]);
      RouteTakesOnlyItsOwn(s.world.service.tables, s.down[0], s.down[0].requestId);
    }
  }

  function CallOf(handler: Option<string>, m: Message): seq<(string, Message)> {
    if handler.Some? then [(handler.value, m)] else []
  }

  /** Whom a message the client reads now is handed to, apart from response handlers: an event to the subscriber of
      its command; any other valid message to the subscriber of its command, unless it is what a request still
      waits for. */
  function HeardNow(w: World, events: seq<Event>, m: Message): seq<(string, Message)> {
    var awaited := m.requestId in w.requests && m.requestId !in w.answered && m.requestId !in w.timedOut;
    if m.command >= 1000 then CallOf(Listener(events, true, m.command), m)
    else if m.command != 0 && !awaited then CallOf(Listener(events, false, m.command), m)
    else []
  }

  lemma HeardStep(routes: Routes, events: seq<Event>, e: Event)
    ensures var s, t := Run(routes, events), Run(routes, events + [e]);
      && t == Next(s, e)
      && t.world.service.heard == s.world.service.heard
           + (if e.Receive? && s.down != [] then HeardNow(s.world, events, s.down[0]) else [])
  {
    var s := Run(routes, events);
    Snoc(events, e);
    InvRun(routes, events);
    assert s.world.service.heard + [] == s.world.service.heard;
    if e.Receive? && s.down != [] {
      var m := s.down[0];
      assert At(s.world, m.requestId);
      ListenersRun(routes, events, m.command);
      ListenersHearOne(s.world.service, m);
      assert Next(s, e).world.service == Accept(s.world.service, m);
    } else {
      HeardKept(s, e);
    }
  }

  lemma HeardKept(s: System, e: Event)
    requires !(e.Receive? && s.down != [])
    ensures Next(s, e).world.service.heard == s.world.service.heard
  {
  }

  /** The calls of long-lived handlers a whole run makes. */
  function HeardIn(routes: Routes, events: seq<Event>): seq<(string, Message)> {
    if events == [] then []
    else
      var init := events[..|events| - 1];
      var s := Run(routes, init);
      HeardIn(routes, init)
      + if events[|events| - 1].Receive? && s.down != [] then HeardNow(s.world, init, s.down[0]) else []
  }

  /** Over every run the long-lived handlers are called exactly so, in the order the messages arrive. */
  lemma {:induction false} ListenersHearTheirs(routes: Routes, events: seq<Event>)
    ensures Run(routes, events).world.service.heard == HeardIn(routes, events)
  {
    if events != [] {
      var init := events[..|events| - 1];
      ListenersHearTheirs(routes, init);
      HeardStep(routes, init, events[|events| - 1]);
      assert init + [events[|events| - 1]] == events;
    }
  }

  /** The calls made for messages of one command. */
  function CallsUnder(heard: seq<(string, Message)>, c: Command): seq<(string, Message)> {
    if heard == [] then []
    else CallsUnder(heard[..|heard| - 1], c)
         + if heard[|heard| - 1].1.command == c then [heard[|heard| - 1]] else []
  }

  /** One call of a handler for each message of one command, in order. */
  function EachOnce(handler: string, ms: seq<Message>, c: Command): seq<(string, Message)> {
    if ms == [] then []
    else EachOnce(handler, ms[..|ms| - 1], c)
         + if ms[|ms| - 1].command == c then [(handler, ms[|ms| - 1])] else []
  }

  predicate Changes(e: Event, event: bool, c: Command) {
    || (e.Subscribe? && e.event == event && e.command == c)
    || (e.Unsubscribe? && e.event == event && e.command == c)
  }

  ghost predicate HearsAll(before: World, after: World, handler: string, c: Command) {
    && before.routed <= after.routed
    && CallsUnder(after.service.heard, c) ==
       CallsUnder(before.service.heard, c) + EachOnce(handler, after.routed[|before.routed|..], c)
  }

  lemma {:induction false} ListenerStays(before: seq<Event>, later: seq<Event>, event: bool, c: Command)
    requires forall i :: 0 <= i < |later| ==> !Changes(later[i], event, c)
    ensures Listener(before + later, event, c) == Listener(before, event, c)
  {
    if later == [] {
      assert before + later == before;
    } else {
      var n := |later| - 1;
      ListenerStays(before, later[..n], event, c);
      assert (before + later)[..|before + later| - 1] == before + later[..n];
    }
  }

  /** One more message read: a subscriber of its command is called with it, nobody else is under that command. */
  lemma HearsOneMore(a: World, b: World, d: World, handler: string, c: Command, read: seq<Message>,
                     calls: seq<(string, Message)>)
    requires HearsAll(a, b, handler, c) && d.routed == b.routed + read && d.service.heard == b.service.heard + calls
    requires read == [] ==> calls == []
    requires read != [] ==> |read| == 1 && |calls| <= 1 && (forall i :: 0 <= i < |calls| ==> calls[i].1 == read[0])
    requires read != [] && read[0].command == c ==> calls == [(handler, read[0])]
    ensures HearsAll(a, d, handler, c)
  {
    var k := |a.routed|;
    if read == [] {
      assert d.routed == b.routed && d.service.heard == b.service.heard;
    } else {
      assert d.routed[k..] == b.routed[k..] + read;
      assert (b.routed[k..] + read)[..|b.routed| - k] == b.routed[k..];
      if calls == [] {
        assert d.service.heard == b.service.heard;
        assert EachOnce(handler, b.routed[k..], c) + [] == EachOnce(handler, b.routed[k..], c);
      } else {
        assert (b.service.heard + calls)[..|b.service.heard|] == b.service.heard;
        assert (b.service.heard + calls)[|b.service.heard|] == calls[0];
      }
    }
  }

  lemma HearsNothingYet(w: World, handler: string, c: Command)
    ensures HearsAll(w, w, handler, c)
  {
    assert w.routed[|w.routed|..] == [];
  }

  lemma RoutedNext(s: System, e: Event)
    ensures Next(s, e).world.routed == s.world.routed + if e.Receive? && s.down != [] then [s.down[0]] else []
  {
    assert s.world.routed + [] == s.world.routed;
  }

  /** From its subscription on, and as long as nobody subscribes or unsubscribes that command, a handler is called
      with every event of that command the client reads, once each and in order; and when nothing is in flight the
      client has read everything the server wrote. */
  lemma {:induction false} SubscriberHearsEverything(routes: Routes, before: seq<Event>, later: seq<Event>, c: Command,
                                                     handler: string)
    requires c >= 1000 && Listener(before, true, c) == Some(handler)
    requires forall i :: 0 <= i < |later| ==> !Changes(later[i], true, c)
    ensures HearsAll(Run(routes, before).world, Run(routes, before + later).world, handler, c)
    ensures var t := Run(routes, before + later); t.down == [] ==> t.world.routed == t.world.sent
  {
    hide Next, Run, Inv, CallsUnder, EachOnce, Listener;
    var a := Run(routes, before).world;
    if later == [] {
      assert before + later == before;
      HearsNothingYet(a, handler, c);
    } else {
      var n := |later| - 1;
      var mid, e := before + later[..n], later[n];
      SubscriberHearsEverything(routes, before, later[..n], c, handler);
      ListenerStays(before, later[..n], true, c);
      assert before + later == mid + [e];
      var s := Run(routes, mid);
      HeardStep(routes, mid, e);
      RoutedNext(s, e);
      var arrives := e.Receive? && s.down != [];
      HearsOneMore(a, s.world, Run(routes, mid + [e]).world, handler, c, if arrives then [s.down[0]] else [],
                   if arrives then HeardNow(s.world, mid, s.down[0]) else []);
    }
    EverythingRead(routes, before + later);
  }

  lemma EverythingRead(routes: Routes, events: seq<Event>)
    ensures var s := Run(routes, events); s.down == [] ==> s.world.routed == s.world.sent
  {
    InvRun(routes, events);
    var s := Run(routes, events);
    assert s.world.routed + [] == s.world.routed;
  }
}
