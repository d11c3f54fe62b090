/** The client's handler tables and the one-shot request service built on them. */
module ClientService {
  import opened Protocol
  import opened Messages
  import opened Framing
  import opened PacketParsing

  /** What the response lambda of a request captured. */
  datatype Waiter = Blocking | Async(context: nat, hasCallback: bool)

  /** Response handlers by request id; named long-lived handlers by command. */
  datatype Tables = Tables(responses: map<string, Waiter>, commands: map<Command, string>, events: map<Command, string>)

  datatype Delivery =
    | Rejected                                // an Invalid message never reaches the tables
    | ToEvent(handler: string)
    | ToWaiter(id: string, waiter: Waiter)
    | ToCommand(handler: string)
    | Unheard

  /** A message a response handler can ever be called with. */
  predicate Deliverable(m: Message) {
    m.IsValid() && !IsEventCommand(m.command)
  }

  function FallBack(t: Tables, c: Command): Delivery {
    if c in t.commands then ToCommand(t.commands[c]) else Unheard
  }

  function Route(t: Tables, m: Message): (r: (Delivery, Tables)) {
    if !m.IsValid() then (Rejected, t)
    else if IsEventCommand(m.command) then
      (if m.command in t.events then ToEvent(t.events[m.command]) else Unheard, t)
    else if m.requestId != "" && m.requestId in t.responses then
      (ToWaiter(m.requestId, t.responses[m.requestId]), t.(responses := t.responses - {m.requestId}))
    else
      (FallBack(t, m.command), t)
  }

  /** A response handler is taken exactly by a deliverable message that carries its own id, and only once. */
  lemma RouteTakesOnlyItsOwn(t: Tables, m: Message, id: string)
    ensures var t' := Route(t, m).1;
      && t'.commands == t.commands && t'.events == t.events
      && t'.responses.Keys <= t.responses.Keys
      && (id in t.responses && id !in t'.responses <==>
          id in t.responses && Deliverable(m) && m.requestId == id && id != "")
      && (id in t'.responses ==> t'.responses[id] == t.responses[id])
  {
  }

  datatype Outcome = Replied(reply: Message) | TimedOut

  datatype Posted = Posted(id: string, outcome: Outcome)

  /** What the caller is given. */
  datatype Response = Response(ok: bool, status: Status, payload: JsonObject, errorMessage: string) {
    predicate IsSuccess() {
      ok && status == SUCCESS
    }
  }

  /** The server puts its error text into the payload. */
  function ResponseOf(outcome: Outcome): Response {
    match outcome
    case Replied(m) =>
      Response(true, m.status, m.payload,
               if "error" in m.payload && m.payload["error"].String? then m.payload["error"].text else "")
    case TimedOut => Response(false, SUCCESS, map[], "Request timed out")
  }

  /** The state behind sendRequest and sendRequestAsync. */
  datatype Service = Service(
    tables: Tables,
    fired: set<string>,             // the shared flag of each asynchronous request
    timers: map<string, Waiter>,    // single-shot timers still to fire
    dead: set<nat>,                 // contexts that were destroyed
    got: map<string, Message>,      // replies caught by blocking calls
    posted: seq<Posted>,            // callbacks queued on their contexts
    heard: seq<(string, Message)>)  // calls of the long-lived handlers

  function Start(s: Service, id: string, w: Waiter): Service {
    s.(tables := s.tables.(responses := s.tables.responses[id := w]),
       timers := if w.Async? && w.context !in s.dead then s.timers[id := w] else s.timers)
  }

  /** The response lambda. */
  function Invoke(s: Service, id: string, w: Waiter, m: Message): Service {
    match w
    case Blocking => s.(got := s.got[id := m])
    case Async(context, hasCallback) =>
      if id in s.fired then s
      else s.(fired := s.fired + {id},
              posted := s.posted + if hasCallback && context !in s.dead then [Posted(id, Replied(m))] else [])
  }

  function Accept(s: Service, m: Message): Service {
    var (d, t) := Route(s.tables, m);
    match d
    case ToWaiter(id, w) => Invoke(s.(tables := t), id, w, m)
    case ToEvent(h) => s.(heard := s.heard + [(h, m)])
    case ToCommand(h) => s.(heard := s.heard + [(h, m)])
    case _ => s
  }

  function AcceptAll(s: Service, ms: seq<Message>): Service {
    if ms == [] then s else Accept(AcceptAll(s, ms[..|ms| - 1]), ms[|ms| - 1])
  }

  lemma AcceptAllSnoc(s: Service, ms: seq<Message>, m: Message)
    ensures AcceptAll(s, ms + [m]) == Accept(AcceptAll(s, ms), m)
  {
    assert (ms + [m])[..|ms + [m]| - 1] == ms;
  }

  // ---------- Who hears what ----------

  /** Whether the waiting handler of m's id is still there after the earlier messages of the same stretch. */
  predicate FindsWaiter(t: Tables, before: seq<Message>, m: Message) {
    && m.requestId != "" && m.requestId in t.responses
    && forall i :: 0 <= i < |before| ==> !(Deliverable(before[i]) && before[i].requestId == m.requestId)
  }

  /** The calls of long-lived handlers a stretch of messages brings about, in order: an event goes to the event
      handler of its command, any other valid message that finds no waiting handler to the handler of its command. */
  function HeardOf(t: Tables, ms: seq<Message>): seq<(string, Message)> {
    if ms == [] then []
    else
      var before, m := ms[..|ms| - 1], ms[|ms| - 1];
      HeardOf(t, before)
      + if m.command >= 1000 && m.command in t.events then [(t.events[m.command], m)]
        else if 0 < m.command < 1000 && m.command in t.commands && !FindsWaiter(t, before, m)
        then [(t.commands[m.command], m)]
        else []
  }

  /** Reading a stretch of messages calls exactly those handlers, and takes exactly the waiting handlers whose
      reply was among them. */
  lemma {:induction false} EveryListenerHears(s: Service, ms: seq<Message>)
    ensures AcceptAll(s, ms).heard == s.heard + HeardOf(s.tables, ms)
    ensures var t := AcceptAll(s, ms).tables;
      && t.commands == s.tables.commands && t.events == s.tables.events
      && forall id :: id in t.responses <==>
           id in s.tables.responses
           && (id == "" || forall i :: 0 <= i < |ms| ==> !(Deliverable(ms[i]) && ms[i].requestId == id))
  {
    if ms == [] {
      assert s.heard + [] == s.heard;
    } else {
      var before, m := ms[..|ms| - 1], ms[|ms| - 1];
      EveryListenerHears(s, before);
      ListenersHearOne(AcceptAll(s, before), m);
      forall id ensures id in AcceptAll(s, ms).tables.responses <==>
        id in s.tables.responses
        && (id == "" || forall i :: 0 <= i < |ms| ==> !(Deliverable(ms[i]) && ms[i].requestId == id)) {
        assert forall i :: 0 <= i < |before| ==> before[i] == ms[i];
      }
    }
  }

  /** A frame whose body is no proper message changes nothing on the client. */
  lemma BadFrameIsDropped(c: Codec, s: Service, body: seq<Byte>, uuid: string)
    requires c.decode(body).None? || !c.decode(body).value.Object?
    ensures Accept(s, ParseBody(c, body, uuid)) == s
  {
    WhichBodiesCount(c, body, uuid);
  }

  lemma ListenersHearOne(s: Service, m: Message)
    ensures var t := Accept(s, m);
      && t.heard == s.heard + (if m.command >= 1000 && m.command in s.tables.events
                               then [(s.tables.events[m.command], m)]
                               else if 0 < m.command < 1000 && m.command in s.tables.commands
                                       && !(m.requestId != "" && m.requestId in s.tables.responses)
                               then [(s.tables.commands[m.command], m)]
                               else [])
      && t.tables.commands == s.tables.commands && t.tables.events == s.tables.events
      && forall id :: id in t.tables.responses <==>
           id in s.tables.responses && (id == "" || !(Deliverable(m) && m.requestId == id))
  {
    assert s.heard + [] == s.heard;
  }

  /** Long-lived handlers come and go; the later one replaces the earlier of the same command. */
  function Listen(s: Service, event: bool, command: Command, handler: string): Service {
    s.(tables := if event then s.tables.(events := s.tables.events[command := handler])
                 else s.tables.(commands := s.tables.commands[command := handler]))
  }

  function Unlisten(s: Service, event: bool, command: Command): Service {
    s.(tables := if event then s.tables.(events := s.tables.events - {command})
                 else s.tables.(commands := s.tables.commands - {command}))
  }

  /** The timeout lambda; its timer dies with the context. */
  function TimerFires(s: Service, id: string): Service
    requires id in s.timers
  {
    var s1 := s.(timers := s.timers - {id});
    if id in s.fired then s1
    else
      var w := s.timers[id];
      s1.(fired := s.fired + {id},
          tables := s.tables.(responses := s.tables.responses - {id}),
          posted := s.posted + if w.Async? && w.hasCallback && w.context !in s.dead then [Posted(id, TimedOut)] else [])
  }

  function DestroyContext(s: Service, context: nat): Service {
    s.(dead := s.dead + {context},
       timers := map id | id in s.timers && !(s.timers[id].Async? && s.timers[id].context == context) :: s.timers[id])
  }

  /** The end of a blocking call, when its event loop has quit. */
  function Return(s: Service, id: string): (Service, Outcome) {
    if id in s.got then (s, Replied(s.got[id]))
    else (s.(tables := s.tables.(responses := s.tables.responses - {id})), TimedOut)
  }

  // ---------- The two client classes ----------

  class ClientNetworkManager {
    var responseHandlers: map<string, Waiter>
    var requestHandlers: map<Command, string>
    var eventHandlers: map<Command, string>
    const packetParser: PacketParser

    ghost function View(): Tables
      reads this
    {
      Tables(responseHandlers, requestHandlers, eventHandlers)
    }

    constructor ()
      ensures View() == Tables(map[], map[], map[])
      ensures fresh(packetParser) && packetParser.Valid() && packetParser.buffer == []
    {
      responseHandlers, requestHandlers, eventHandlers := map[], map[], map[];
      packetParser := new PacketParser();
    }

    method RegisterRequestHandler(command: Command, handler: string)
      modifies this`requestHandlers
      ensures requestHandlers == old(requestHandlers)[command := handler]
    {
      requestHandlers := requestHandlers[command := handler];
    }

    method UnregisterRequestHandler(command: Command)
      modifies this`requestHandlers
      ensures requestHandlers == old(requestHandlers) - {command}
    {
      requestHandlers := requestHandlers - {command};
    }

    method RegisterEventHandler(command: Command, handler: string)
      modifies this`eventHandlers
      ensures eventHandlers == old(eventHandlers)[command := handler]
    {
      eventHandlers := eventHandlers[command := handler];
    }

    method UnregisterEventHandler(command: Command)
      modifies this`eventHandlers
      ensures eventHandlers == old(eventHandlers) - {command}
    {
      eventHandlers := eventHandlers - {command};
    }

    method RegisterResponseHandler(id: string, w: Waiter)
      modifies this`responseHandlers
      ensures responseHandlers == if id == "" then old(responseHandlers) else old(responseHandlers)[id := w]
    {
      if id == "" { return; }
      responseHandlers := responseHandlers[id := w];
    }

    method UnregisterResponseHandler(id: string)
      modifies this`responseHandlers
      ensures responseHandlers == if id == "" then old(responseHandlers) else old(responseHandlers) - {id}
    {
      if id == "" { return; }
      responseHandlers := responseHandlers - {id};
    }

    method RouteResponse(m: Message) returns (d: Delivery)
      requires m.IsValid()
      modifies this`responseHandlers
      ensures (d, View()) == Route(old(View()), m)
      ensures m.command >= 1000 ==>
                && responseHandlers == old(responseHandlers)
                && d == if m.command in eventHandlers then ToEvent(eventHandlers[m.command]) else Unheard
      ensures m.command < 1000 && m.requestId != "" && m.requestId in old(responseHandlers) ==>
                && responseHandlers == old(responseHandlers) - {m.requestId}
                && d == ToWaiter(m.requestId, old(responseHandlers)[m.requestId])
      ensures m.command < 1000 && (m.requestId == "" || m.requestId !in old(responseHandlers)) ==>
                && responseHandlers == old(responseHandlers)
                && d == if m.command in requestHandlers then ToCommand(requestHandlers[m.command]) else Unheard
    {
      if IsEventCommand(m.command) {
        if m.command in eventHandlers {
          return ToEvent(eventHandlers[m.command]);
        }
        return Unheard;
      }
      if m.requestId != "" {
        if m.requestId in responseHandlers {
          d := ToWaiter(m.requestId, responseHandlers[m.requestId]);
          responseHandlers := responseHandlers - {m.requestId};
          return;
        }
      }
      if m.command in requestHandlers {
        return ToCommand(requestHandlers[m.command]);
      }
      return Unheard;
    }
  }

  class NetworkService {
    const network: ClientNetworkManager
    var fired: set<string>
    var timers: map<string, Waiter>
    var dead: set<nat>
    var got: map<string, Message>
    var posted: seq<Posted>
    var heard: seq<(string, Message)>

    ghost function View(): Service
      reads this, network
    {
      Service(network.View(), fired, timers, dead, got, posted, heard)
    }

    constructor ()
      ensures View() == Service(Tables(map[], map[], map[]), {}, map[], {}, map[], [], [])
      ensures fresh(network) && fresh(network.packetParser) && network.packetParser.Valid()
      ensures network.packetParser.buffer == []
    {
      network := new ClientNetworkManager();
      fired, timers, dead, got, posted, heard := {}, map[], {}, map[], [], [];
    }

    /** Registers the waiter and arms the timer; the caller writes the packed message. */
    method Begin(m: Message, w: Waiter)
      requires m.requestId != ""
      modifies this`timers, network`responseHandlers
      ensures View() == Start(old(View()), m.requestId, w)
    {
      network.RegisterResponseHandler(m.requestId, w);
      if w.Async? && w.context !in dead {
        timers := timers[m.requestId := w];
      }
    }

    method Call(id: string, w: Waiter, m: Message)
      modifies this`got, this`fired, this`posted
      ensures View() == Invoke(old(View()), id, w, m)
    {
      match w {
        case Blocking =>
          got := got[id := m];
        case Async(context, hasCallback) =>
          if id in fired { return; }
          fired := fired + {id};
          if hasCallback {
            if context !in dead {
              posted := posted + [Posted(id, Replied(m))];
            }
          }
          assert old(posted) + [] == old(posted);
      }
    }

    method Dispatch(m: Message)
      requires m.IsValid()
      modifies this, network`responseHandlers
      ensures View() == Accept(old(View()), m)
    {
      var d := network.RouteResponse(m);
      match d {
        case ToWaiter(id, w) => Call(id, w, m);
        case ToEvent(h) => heard := heard + [(h, m)];
        case ToCommand(h) => heard := heard + [(h, m)];
        case _ =>
      }
    }

    method HandleNext(c: Codec, uuid: string) returns (m: Message)
      requires network.packetParser.Valid() && Ready(network.packetParser.buffer)
      modifies this, network`responseHandlers, network.packetParser
      ensures network.packetParser.Valid() && HasFrame(old(network.packetParser.buffer))
      ensures m == ParseBody(c, FrameBody(old(network.packetParser.buffer)), uuid)
      ensures network.packetParser.buffer == AfterFrame(old(network.packetParser.buffer))
      ensures View() == Accept(old(View()), m)
    {
      m := network.packetParser.NextPacket(c, uuid);
      if m.IsValid() {
        Dispatch(m);
      }
    }

    /** The read slot: feed, then route every complete message in order. */
    method OnReadyRead(c: Codec, data: seq<Byte>, uuids: nat -> string, start: nat) returns (ms: seq<Message>)
      requires network.packetParser.Valid()
      modifies this, network, network.packetParser
      ensures network.packetParser.Valid() && !Ready(network.packetParser.buffer)
      ensures Emits(c, uuids, start, old(network.packetParser.buffer) + data, ms, network.packetParser.buffer)
      ensures View() == AcceptAll(old(View()), ms)
      ensures heard == old(heard) + HeardOf(old(network.View()), ms)
    {
      network.packetParser.Feed(data);
      ghost var all := network.packetParser.buffer;
      ms := [];
      var more := network.packetParser.HasNextPacket();
      while more
        invariant network.packetParser.Valid()
        invariant more == Ready(network.packetParser.buffer)
        invariant Emits(c, uuids, start, all, ms, network.packetParser.buffer)
        invariant View() == AcceptAll(old(View()), ms)
        decreases |network.packetParser.buffer|, more
      {
        ReadyIsSound(network.packetParser.buffer);
        EmitsNext(c, uuids, start, all, ms, network.packetParser.buffer);
        var m := HandleNext(c, uuids(start + |ms|));
        AcceptAllSnoc(old(View()), ms, m);
        ms := ms + [m];
        more := network.packetParser.HasNextPacket();
      }
      EveryListenerHears(old(View()), ms);
    }

    method OnTimer(id: string)
      requires id in timers && id != ""
      modifies this, network`responseHandlers
      ensures View() == TimerFires(old(View()), id)
    {
      var w := timers[id];
      timers := timers - {id};
      if id in fired { return; }
      fired := fired + {id};
      network.UnregisterResponseHandler(id);
      if w.Async? && w.hasCallback {
        if w.context !in dead {
          posted := posted + [Posted(id, TimedOut)];
        }
      }
      assert old(posted) + [] == old(posted);
    }

    method OnContextDestroyed(context: nat)
      modifies this
      ensures View() == DestroyContext(old(View()), context)
    {
      dead := dead + {context};
      timers := map id | id in timers && !(timers[id].Async? && timers[id].context == context) :: timers[id];
    }

    /** After the event loop: give the reply, or unregister so a late one finds nobody. */
    method EndBlocking(id: string) returns (outcome: Outcome)
      requires id != ""
      modifies network`responseHandlers
      ensures (View(), outcome) == Return(old(View()), id)
    {
      if id in got {
        return Replied(got[id]);
      }
      network.UnregisterResponseHandler(id);
      return TimedOut;
    }
  }
}
