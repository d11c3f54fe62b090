/** Request dispatch on the server: handler lookup, request-id hand-over and replies. */
module Serving {
  import opened Protocol
  import opened Messages
  import opened Framing
  import opened PacketParsing
  import opened RequestStatistics
  import opened Connections

  /** What a handler passes to sendSuccess or sendError, and the id the Message constructor drew. */
  datatype Body = Body(command: Command, status: Status, payload: JsonObject, uuid: string)

  /** Which commands have a handler. */
  datatype Routes = Routes(commands: set<Command>, hasDefault: bool) {
    predicate Serve(c: Command) {
      c in commands || hasDefault
    }
  }

  /** A reply echoes the current request id when there is one. */
  function Stamp(currentId: string, b: Body): Message {
    Message(b.command, b.status, b.payload, if currentId != "" then currentId else b.uuid, "")
  }

  function StampAll(currentId: string, bodies: seq<Body>): (ms: seq<Message>)
    ensures |ms| == |bodies|
    ensures currentId != "" ==> forall i :: 0 <= i < |ms| ==> ms[i].requestId == currentId
  {
    if bodies == [] then [] else StampAll(currentId, bodies[..|bodies| - 1]) + [Stamp(currentId, bodies[|bodies| - 1])]
  }

  /** The answer to a command nobody serves: an Invalid message with the request's id. */
  function NoHandlerReply(request: Message): Message {
    Message(INVALID, BAD_REQUEST, map[], request.requestId, "")
  }

  /** Everything one dispatch writes; an Invalid request is dropped before it. */
  function Replies(routes: Routes, request: Message, bodies: seq<Body>): (ms: seq<Message>)
    ensures request.requestId != "" ==> forall i :: 0 <= i < |ms| ==> ms[i].requestId == request.requestId
    ensures request.IsValid() && !routes.Serve(request.command) ==> |ms| == 1 && !ms[0].IsValid()
  {
    if !request.IsValid() then []
    else if routes.Serve(request.command) then StampAll(request.requestId, bodies)
    else [NoHandlerReply(request)]
  }

  /** A handler's replies carry, each, the command, status and payload it was decided with and the request's id; a
      request nobody serves gets the one Invalid message; an Invalid request gets nothing. */
  lemma {:induction false} RepliesAre(routes: Routes, request: Message, bodies: seq<Body>)
    ensures var ms := Replies(routes, request, bodies);
      if !request.IsValid() then ms == []
      else if !(request.command in routes.commands || routes.hasDefault)
      then ms == [Message(INVALID, BAD_REQUEST, map[], request.requestId, "")]
      else
        && |ms| == |bodies|
        && forall i :: 0 <= i < |bodies| ==>
             && ms[i].command == bodies[i].command && ms[i].status == bodies[i].status
             && ms[i].payload == bodies[i].payload && ms[i].errorMessage == ""
             && ms[i].requestId == if request.requestId != "" then request.requestId else bodies[i].uuid
  {
    if request.IsValid() && routes.Serve(request.command) {
      forall i | 0 <= i < |bodies| ensures Replies(routes, request, bodies)[i] == Stamp(request.requestId, bodies[i]) {
        StampAt(request.requestId, bodies, i);
      }
    }
  }

  /** A frame whose body is no proper message gets no reply. */
  lemma BadFrameGetsNoReply(c: Codec, routes: Routes, body: seq<Byte>, uuid: string, bodies: seq<Body>)
    requires c.decode(body).None? || !c.decode(body).value.Object?
    ensures Replies(routes, ParseBody(c, body, uuid), bodies) == []
  {
    WhichBodiesCount(c, body, uuid);
  }

  lemma {:induction false} StampAt(currentId: string, bodies: seq<Body>, i: nat)
    requires i < |bodies|
    ensures StampAll(currentId, bodies)[i] == Stamp(currentId, bodies[i])
  {
    if i < |bodies| - 1 {
      StampAt(currentId, bodies[..|bodies| - 1], i);
    }
  }

  /** The replies to a batch of requests, in order; the k-th request gets the k-th decision. */
  function ServeAll(routes: Routes, ms: seq<Message>, decisions: nat -> seq<Body>, start: nat): seq<Message> {
    if ms == [] then []
    else ServeAll(routes, ms[..|ms| - 1], decisions, start) + Replies(routes, ms[|ms| - 1], decisions(start + |ms| - 1))
  }

  lemma ServeAllSnoc(routes: Routes, ms: seq<Message>, m: Message, decisions: nat -> seq<Body>, start: nat)
    ensures ServeAll(routes, ms + [m], decisions, start)
         == ServeAll(routes, ms, decisions, start) + Replies(routes, m, decisions(start + |ms|))
  {
    assert (ms + [m])[..|ms + [m]| - 1] == ms;
  }

  /** What a read slot has done so far: a stretch of the batch reading, each request answered in order. */
  ghost predicate Slot(c: Codec, uuids: nat -> string, start: nat, first: seq<Byte>, ms: seq<Message>,
                       buffer: seq<Byte>, routes: Routes, decisions: nat -> seq<Body>, connected: bool,
                       was: seq<Message>, written: seq<Message>) {
    && Emits(c, uuids, start, first, ms, buffer)
    && written == was + if connected then ServeAll(routes, ms, decisions, start) else []
  }

  lemma SlotStart(c: Codec, uuids: nat -> string, start: nat, first: seq<Byte>, routes: Routes,
                  decisions: nat -> seq<Body>, connected: bool, was: seq<Message>)
    ensures Slot(c, uuids, start, first, [], first, routes, decisions, connected, was, was)
  {
    assert was + [] == was;
    assert [] + ParseAll(c, Frames(first), uuids, start) == ParseAll(c, Frames(first), uuids, start);
  }

  lemma SlotNext(c: Codec, uuids: nat -> string, start: nat, first: seq<Byte>, ms: seq<Message>, buffer: seq<Byte>,
                 routes: Routes, decisions: nat -> seq<Body>, connected: bool, was: seq<Message>, written: seq<Message>,
                 m: Message, after: seq<Byte>, now: seq<Message>)
    requires Slot(c, uuids, start, first, ms, buffer, routes, decisions, connected, was, written)
    requires HasFrame(buffer) && after == AfterFrame(buffer)
    requires m == ParseBody(c, FrameBody(buffer), uuids(start + |ms|))
    requires now == written + if connected then Replies(routes, m, decisions(start + |ms|)) else []
    ensures Slot(c, uuids, start, first, ms + [m], after, routes, decisions, connected, was, now)
  {
    hide ServeAll, Replies, Emits, ParseBody;
    EmitsNext(c, uuids, start, first, ms, buffer);
    ServeAllSnoc(routes, ms, m, decisions, start);
  }

  /** What the statistics record of a batch: every valid message, when it came and how long it took. */
  function Log(routes: Routes, ms: seq<Message>, name: Message -> string, clock: nat -> int, start: nat): seq<Served> {
    if ms == [] then []
    else
      var m, k := ms[|ms| - 1], start + |ms| - 1;
      Log(routes, ms[..|ms| - 1], name, clock, start)
      + if m.IsValid() then [Entry(routes, m, name(m), clock(2 * k), clock(2 * k + 1))] else []
  }

  function Entry(routes: Routes, m: Message, name: string, begin: int, end: int): Served {
    Served(begin, name, routes.Serve(m.command), end - begin)
  }

  function Valid(ms: seq<Message>): nat {
    if ms == [] then 0 else Valid(ms[..|ms| - 1]) + if ms[|ms| - 1].command == INVALID then 0 else 1
  }

  function Unserved(routes: Routes, ms: seq<Message>): nat {
    if ms == [] then 0
    else
      var c := ms[|ms| - 1].command;
      Unserved(routes, ms[..|ms| - 1])
      + if c == INVALID || c in routes.commands || routes.hasDefault then 0 else 1
  }

  function CalledSo(ms: seq<Message>, name: Message -> string, n: string): nat {
    if ms == [] then 0
    else
      var m := ms[|ms| - 1];
      CalledSo(ms[..|ms| - 1], name, n) + if m.command != INVALID && name(m) == n then 1 else 0
  }

  /** A batch is logged as one request for each of its valid messages, under its name; the errors are the valid
      messages nobody serves. */
  lemma {:induction false} BatchIsLogged(routes: Routes, ms: seq<Message>, name: Message -> string, clock: nat -> int,
                                         start: nat)
    ensures var log := Log(routes, ms, name, clock, start);
      && |log| == Valid(ms) && Failures(log) == Unserved(routes, ms)
      && forall n :: Named(log, n) == CalledSo(ms, name, n)
  {
    if ms != [] {
      var init, m, k := ms[..|ms| - 1], ms[|ms| - 1], start + |ms| - 1;
      BatchIsLogged(routes, init, name, clock, start);
      var log := Log(routes, init, name, clock, start);
      if m.IsValid() {
        var x := Entry(routes, m, name(m), clock(2 * k), clock(2 * k + 1));
        assert (log + [x])[..|log|] == log;
      } else {
        assert log + [] == log;
      }
    }
  }

  lemma LogStart(s: Stats, routes: Routes, name: Message -> string, clock: nat -> int, start: nat)
    ensures Replay(s, Log(routes, [], name, clock, start)) == s
  {
  }

  /** The statistics after one more message of the batch. */
  lemma LogNext(s: Stats, routes: Routes, ms: seq<Message>, name: Message -> string, clock: nat -> int, start: nat,
                m: Message)
    ensures var k := start + |ms|;
      Replay(s, Log(routes, ms + [m], name, clock, start)) ==
        if m.IsValid() then Counted(Replay(s, Log(routes, ms, name, clock, start)),
                                    Entry(routes, m, name(m), clock(2 * k), clock(2 * k + 1)))
        else Replay(s, Log(routes, ms, name, clock, start))
  {
    hide Counted, Entry;
    var log, k := Log(routes, ms, name, clock, start), start + |ms|;
    assert (ms + [m])[..|ms|] == ms;
    if m.IsValid() {
      var x := Entry(routes, m, name(m), clock(2 * k), clock(2 * k + 1));
      assert Log(routes, ms + [m], name, clock, start) == log + [x];
      assert (log + [x])[..|log|] == log;
    } else {
      assert Log(routes, ms + [m], name, clock, start) == log + [] == log;
    }
  }

  class RequestHandler {
    var currentRequestId: string

    constructor ()
      ensures currentRequestId == ""
    {
      currentRequestId := "";
    }

    method SetCurrentRequestId(id: string)
      modifies this
      ensures currentRequestId == id
    {
      currentRequestId := id;
    }

    method SendSuccess(client: ClientConnection, command: Command, payload: JsonObject, uuid: string)
      modifies client`written
      ensures client.written == if client.connected
                                then old(client.written)
                                     + [Message(command, SUCCESS, payload,
                                                if currentRequestId != "" then currentRequestId else uuid, "")]
                                else old(client.written)
    {
      var response := Message(command, SUCCESS, payload, uuid, "");
      if currentRequestId != "" {
        response := response.(requestId := currentRequestId);
      }
      client.SendMessage(response);
    }

    method SendError(client: ClientConnection, command: Command, status: Status, errorMessage: string, uuid: string)
      modifies client`written
      ensures var payload := if errorMessage != "" then map["error" := String(errorMessage)] else map[];
        client.written == if client.connected
                          then old(client.written)
                               + [Message(command, status, payload,
                                          if currentRequestId != "" then currentRequestId else uuid, "")]
                          else old(client.written)
    {
      var payload: JsonObject := map[];
      if errorMessage != "" {
        payload := payload["error" := String(errorMessage)];
      }
      var response := Message(command, status, payload, uuid, "");
      if currentRequestId != "" {
        response := response.(requestId := currentRequestId);
      }
      client.SendMessage(response);
    }

    /** A concrete handler is known here only by the replies it decides to send. */
    method Handle(client: ClientConnection, bodies: seq<Body>)
      modifies client`written
      ensures client.written == if client.connected
                                then old(client.written) + StampAll(currentRequestId, bodies)
                                else old(client.written)
    {
      for i := 0 to |bodies|
        invariant client.written == if client.connected
                                    then old(client.written) + StampAll(currentRequestId, bodies[..i])
                                    else old(client.written)
      {
        assert bodies[..i + 1][..i] == bodies[..i];
        var response := Message(bodies[i].command, bodies[i].status, bodies[i].payload, bodies[i].uuid, "");
        if currentRequestId != "" {
          response := response.(requestId := currentRequestId);
        }
        client.SendMessage(response);
      }
      assert bodies[..|bodies|] == bodies;
    }
  }

  class RequestRouter {
    var handlers: map<Command, RequestHandler>
    var defaultHandler: RequestHandler?
    const stats: RequestStats

    ghost function View(): Routes
      reads this
    {
      Routes(handlers.Keys, defaultHandler != null)
    }

    constructor ()
      ensures View() == Routes({}, false)
      ensures fresh(stats) && stats.View() == EMPTY
    {
      handlers, defaultHandler := map[], null;
      stats := new RequestStats();
    }

    method RegisterHandler(command: Command, handler: RequestHandler)
      modifies this`handlers
      ensures handlers == old(handlers)[command := handler]
    {
      handlers := handlers[command := handler];
    }

    method RegisterDefaultHandler(handler: RequestHandler)
      modifies this`defaultHandler
      ensures defaultHandler == handler
    {
      defaultHandler := handler;
    }

    /** One dispatch: the request's id is handed to its handler before the handler runs, so every reply
        carries it, whatever request the handler served before; and it is counted once. */
    method HandleRequest(m: Message, client: ClientConnection, bodies: seq<Body>, name: string, start: int, end: int)
      requires m.IsValid()
      modifies client`written, stats, handlers.Values, defaultHandler
      ensures client.written == if client.connected
                                then old(client.written) + Replies(View(), m, bodies)
                                else old(client.written)
      ensures client.connected && (m.command in handlers || defaultHandler != null) ==>
                && |client.written| == |old(client.written)| + |bodies|
                && old(client.written) <= client.written
                && forall i :: 0 <= i < |bodies| ==>
                     var reply := client.written[|old(client.written)| + i];
                     && reply.command == bodies[i].command && reply.status == bodies[i].status
                     && reply.payload == bodies[i].payload
                     && (m.requestId != "" ==> reply.requestId == m.requestId)
      ensures client.connected && !(m.command in handlers || defaultHandler != null) ==>
                client.written == old(client.written) + [Message(INVALID, BAD_REQUEST, map[], m.requestId, "")]
      ensures stats.View() == Counted(old(stats.View()),
                                      Served(start, name, m.command in handlers || defaultHandler != null, end - start))
    {
      hide StampAll;
      RepliesAre(View(), m, bodies);
      var handler := if m.command in handlers then handlers[m.command] else defaultHandler;
      stats.Request(start);
      stats.Command(name);
      if handler != null {
        handler.SetCurrentRequestId(m.requestId);
        handler.Handle(client, bodies);
        stats.Response(true, end - start);
      } else {
        var errorResponse := Message(INVALID, BAD_REQUEST, map[], m.requestId, "");
        client.SendMessage(errorResponse);
        stats.Response(false, end - start);
      }
    }

    method ServeNext(c: Codec, client: ClientConnection, bodies: seq<Body>, name: Message -> string,
                     begin: int, end: int, uuid: string)
      returns (m: Message, more: bool)
      requires client.packetParser.Valid() && Ready(client.packetParser.buffer)
      modifies client`written, client.packetParser, stats, handlers.Values, defaultHandler
      ensures client.packetParser.Valid() && HasFrame(old(client.packetParser.buffer))
      ensures m == ParseBody(c, FrameBody(old(client.packetParser.buffer)), uuid)
      ensures client.packetParser.buffer == AfterFrame(old(client.packetParser.buffer))
      ensures client.written == old(client.written) + if client.connected then Replies(View(), m, bodies) else []
      ensures more == Ready(client.packetParser.buffer)
      ensures stats.View() == if m.IsValid() then Counted(old(stats.View()), Entry(View(), m, name(m), begin, end))
                              else old(stats.View())
    {
      hide Counted;
      m := client.packetParser.NextPacket(c, uuid);
      if m.IsValid() {
        HandleRequest(m, client, bodies, name(m), begin, end);
      }
      more := client.packetParser.HasNextPacket();
    }

    /** The server's read slot: every complete frame is dispatched in order and answered with its own id. */
    method ProcessPendingPackets(c: Codec, client: ClientConnection, decisions: nat -> seq<Body>,
                                 name: Message -> string, clock: nat -> int, uuids: nat -> string, start: nat)
      returns (ms: seq<Message>)
      requires client.packetParser.Valid()
      modifies client`written, client.packetParser, stats, handlers.Values, defaultHandler
      ensures client.packetParser.Valid()
      ensures Slot(c, uuids, start, old(client.packetParser.buffer), ms, client.packetParser.buffer,
                   View(), decisions, client.connected, old(client.written), client.written)
      ensures !Ready(client.packetParser.buffer)
      ensures stats.View() == Replay(old(stats.View()), Log(View(), ms, name, clock, start))
    {
      hide Counted, Entry, Log, Replay, Slot;
      ms := [];
      LogStart(stats.View(), View(), name, clock, start);
      ghost var routes, first, was := View(), client.packetParser.buffer, client.written;
      SlotStart(c, uuids, start, first, routes, decisions, client.connected, was);
      var more := client.packetParser.HasNextPacket();
      while more
        invariant client.packetParser.Valid() && more == Ready(client.packetParser.buffer)
        invariant View() == routes
        invariant stats.View() == Replay(old(stats.View()), Log(routes, ms, name, clock, start))
        invariant Slot(c, uuids, start, first, ms, client.packetParser.buffer,
                       routes, decisions, client.connected, was, client.written)
        decreases |client.packetParser.buffer|, more
      {
        ghost var before, written := client.packetParser.buffer, client.written;
        var k := start + |ms|;
        var m;
        m, more := ServeNext(c, client, decisions(k), name, clock(2 * k), clock(2 * k + 1), uuids(k));
        LogNext(old(stats.View()), routes, ms, name, clock, start, m);
        SlotNext(c, uuids, start, first, ms, before, routes, decisions, client.connected, was, written,
                 m, client.packetParser.buffer, client.written);
        ms := ms + [m];
      }
    }
  }
}
