/** The same protocol over raw bytes. */
module WireRefinement {
  // Frames are cut out of two byte streams that arrive in any pieces. Every byte-level run is a message-level run, so
  // its main results carry over.

  import opened Protocol
  import opened Messages
  import opened Framing
  import opened PacketParsing
  import opened ClientService
  import opened Serving
  import opened Correlation

  /** Bytes still in transit and the buffer of the parser at the receiving end. */
  datatype Link = Link(wire: seq<Byte>, buffer: seq<Byte>)

  datatype Net = Net(world: World, up: Link, down: Link)

  function Write(l: Link, bytes: seq<Byte>): Link {
    l.(wire := l.wire + bytes)
  }

  /** The next bytes arrive and are fed to the parser. */
  function Arrive(l: Link, count: nat): Link {
    var k := if count <= |l.wire| then count else |l.wire|;
    Link(l.wire[k..], l.buffer + l.wire[..k])
  }

  function TakeFrame(l: Link): Link
    requires HasFrame(l.buffer)
  {
    l.(buffer := AfterFrame(l.buffer))
  }

  /** Whether an event can happen; messages are assumed to fit the frame header. */
  predicate Possible(c: Codec, n: Net, e: Event, uuid: string) {
    match e
    case Send(m, waiter, _) => CanSend(n.world, m, waiter) && Packable(c, m)
    case SendPlain(m) => Fresh(n.world, m.requestId) && Packable(c, m)
    case Push(m) => Fresh(n.world, m.requestId) && Packable(c, m)
    case Serve(bodies) =>
      && Ready(n.up.buffer) && HasFrame(n.up.buffer)
      && AllPackable(c, Replies(n.world.routes, ParseBody(c, FrameBody(n.up.buffer), uuid), bodies))
    case Receive => Ready(n.down.buffer) && HasFrame(n.down.buffer)
    case Timer(id) => id in n.world.service.timers
    case End(id) => CanEnd(n.world, id)
    case Destroy(_) => true
    case Subscribe(_, _, _) => true
    case Unsubscribe(_, _) => true
    case Carry(_, _) => true
  }

  function NextNet(c: Codec, n: Net, e: Event, uuid: string): Net
    requires Possible(c, n, e, uuid)
  {
    var w := n.world;
    match e
    case Send(m, waiter, written) =>
      n.(world := BeginRequest(w, m, waiter), up := if written then Write(n.up, Pack(c, m)) else n.up)
    case SendPlain(m) => n.(world := BeginPlain(w, m), up := Write(n.up, Pack(c, m)))
    case Push(m) => n.(world := PushOne(w, m), down := Write(n.down, Pack(c, m)))
    case Serve(bodies) =>
      var m := ParseBody(c, FrameBody(n.up.buffer), uuid);
      Net(Dispatch(w, m, bodies), TakeFrame(n.up), Write(n.down, PackAll(c, Replies(w.routes, m, bodies))))
    case Receive =>
      n.(world := ReceiveOne(w, ParseBody(c, FrameBody(n.down.buffer), uuid)), down := TakeFrame(n.down))
    case Timer(id) => n.(world := FireTimer(w, id))
    case Destroy(context) => n.(world := w.(service := DestroyContext(w.service, context)))
    case End(id) => n.(world := EndCall(w, id))
    case Subscribe(event, command, handler) => n.(world := w.(service := Listen(w.service, event, command, handler)))
    case Unsubscribe(event, command) => n.(world := w.(service := Unlisten(w.service, event, command)))
    case Carry(upwards, count) =>
      if upwards then n.(up := Arrive(n.up, count)) else n.(down := Arrive(n.down, count))
  }

  /** The k-th event draws the k-th fresh id if a message comes without one. */
  function RunNet(c: Codec, routes: Routes, events: seq<Event>, uuids: nat -> string): Net {
    if events == [] then Net(Initial(routes).world, Link([], []), Link([], []))
    else
      var k := |events| - 1;
      var n := RunNet(c, routes, events[..k], uuids);
      if Possible(c, n, events[k], uuids(k)) then NextNet(c, n, events[k], uuids(k)) else n
  }

  // ---------- Refinement ----------

  /** The bytes between the two ends are the packed messages not yet read. */
  ghost predicate Carries(c: Codec, l: Link, ms: seq<Message>) {
    l.buffer + l.wire == PackAll(c, ms) && AllPackable(c, ms)
  }

  ghost predicate Refines(c: Codec, n: Net, s: System) {
    n.world == s.world && Carries(c, n.up, s.up) && Carries(c, n.down, s.down)
  }

  lemma WriteCarries(c: Codec, l: Link, ms: seq<Message>, more: seq<Message>)
    requires Carries(c, l, ms) && AllPackable(c, more)
    ensures Carries(c, Write(l, PackAll(c, more)), ms + more)
  {
    PackAllAppend(c, ms, more);
    Assoc(l.buffer, l.wire, PackAll(c, more));
  }

  lemma PackOne(c: Codec, m: Message)
    ensures PackAll(c, [m]) == Pack(c, m)
  {
    assert PackAll(c, [m]) == Pack(c, m) + PackAll(c, []);
  }

  lemma ArriveCarries(c: Codec, l: Link, count: nat, ms: seq<Message>)
    requires Carries(c, l, ms)
    ensures Carries(c, Arrive(l, count), ms)
  {
    var k := if count <= |l.wire| then count else |l.wire|;
    assert l.wire[..k] + l.wire[k..] == l.wire;
    Assoc(l.buffer, l.wire[..k], l.wire[k..]);
  }

  lemma FrameOfPrefix(buffer: seq<Byte>, wire: seq<Byte>)
    requires HasFrame(buffer)
    ensures HasFrame(buffer + wire) && FrameBody(buffer + wire) == FrameBody(buffer)
    ensures AfterFrame(buffer + wire) == AfterFrame(buffer) + wire
  {
    assert DecodeSize(buffer + wire) == DecodeSize(buffer);
  }

  /** A frame found in the buffer is the first unread message, unaltered. */
  lemma TakeCarries(c: Codec, l: Link, ms: seq<Message>, uuid: string)
    requires c.Lawful() && Carries(c, l, ms) && HasFrame(l.buffer)
    ensures ms != [] && ParseBody(c, FrameBody(l.buffer), uuid) == ms[0]
    ensures Carries(c, TakeFrame(l), ms[1..])
  {
    assert |l.buffer + l.wire| >= HEADER;
    FrameOfPrefix(l.buffer, l.wire);
    FrameRoundTrip(c.encode(ms[0].ToJson()), PackAll(c, ms[1..]));
    assert Packable(c, ms[0]);
    ParsePacked(c, ms[0], uuid);
    assert forall i :: 0 <= i < |ms[1..]| ==> ms[1..][i] == ms[i + 1] && Packable(c, ms[i + 1]);
  }

  lemma StepRefines(c: Codec, n: Net, s: System, e: Event, uuid: string)
    requires c.Lawful() && Refines(c, n, s) && Possible(c, n, e, uuid)
    ensures Refines(c, NextNet(c, n, e, uuid), Next(s, e))
  {
    match e {
      case Send(m, _, _) => PackOne(c, m); WriteCarries(c, n.up, s.up, [m]);
      case SendPlain(m) => PackOne(c, m); WriteCarries(c, n.up, s.up, [m]);
      case Push(m) => PackOne(c, m); WriteCarries(c, n.down, s.down, [m]);
      case Serve(bodies) =>
        TakeCarries(c, n.up, s.up, uuid);
        WriteCarries(c, n.down, s.down, Replies(n.world.routes, s.up[0], bodies));
      case Receive => TakeCarries(c, n.down, s.down, uuid);
      case Carry(upwards, count) =>
        if upwards { ArriveCarries(c, n.up, count, s.up); } else { ArriveCarries(c, n.down, count, s.down); }
      case _ =>
    }
  }

  lemma StartRefines(c: Codec, routes: Routes)
    ensures Refines(c, Net(Initial(routes).world, Link([], []), Link([], [])), Initial(routes))
  {
  }

  lemma ListenerNext(events: seq<Event>, e: Event, event: bool, c: Command)
    ensures Listener(events + [e], event, c) ==
            if e.Subscribe? && e.event == event && e.command == c then Some(e.handler)
            else if e.Unsubscribe? && e.event == event && e.command == c then None
            else Listener(events, event, c)
  {
    Snoc(events, e);
  }

  /** Every run over bytes is a run over messages, with the same subscriptions. */
  lemma {:induction false} RunRefines(c: Codec, routes: Routes, events: seq<Event>, uuids: nat -> string)
    returns (messageEvents: seq<Event>)
    requires c.Lawful()
    ensures Refines(c, RunNet(c, routes, events, uuids), Run(routes, messageEvents))
    ensures forall event, command :: Listener(messageEvents, event, command) == Listener(events, event, command)
  {
    hide Next, NextNet, Refines, Listener;
    if events == [] {
      messageEvents := [];
      StartRefines(c, routes);
    } else {
      var k := |events| - 1;
      var init := RunRefines(c, routes, events[..k], uuids);
      var n := RunNet(c, routes, events[..k], uuids);
      assert events == events[..k] + [events[k]];
      forall event, command
        ensures Possible(c, n, events[k], uuids(k)) ==>
                  Listener(init + [events[k]], event, command) == Listener(events, event, command)
        ensures !Possible(c, n, events[k], uuids(k)) ==>
                  Listener(init, event, command) == Listener(events, event, command) {
        ListenerNext(events[..k], events[k], event, command);
        ListenerNext(init, events[k], event, command);
      }
      if Possible(c, n, events[k], uuids(k)) {
        StepRefines(c, n, Run(routes, init), events[k], uuids(k));
        messageEvents := init + [events[k]];
        Snoc(init, events[k]);
      } else {
        messageEvents := init;
      }
    }
  }

  /** Over bytes cut into any pieces too, a response handler is only ever called with the first deliverable
      reply the server produced for that very request, with the content its handler decided, and at most once. */
  lemma HandlersGetTheirOwnReplyOverBytes(c: Codec, routes: Routes, events: seq<Event>, uuids: nat -> string, k: nat)
    requires c.Lawful() && k < |RunNet(c, routes, events, uuids).world.calls|
    ensures var w := RunNet(c, routes, events, uuids).world; var call := w.calls[k];
      && call.id in w.requests && call.id in w.dispatched
      && w.dispatched[call.id].request == w.requests[call.id].message
      && call.reply.requestId == call.id
      && FirstReply(RepliesTo(w, call.id)) == Some(call.reply)
      && IsFirstAnswer(call.reply, w.dispatched[call.id].bodies)
      && (forall j :: 0 <= j < |w.calls| && j != k ==> w.calls[j].id != call.id)
  {
    var es := RunRefines(c, routes, events, uuids);
    HandlersGetTheirOwnReply(routes, es, k);
  }

  /** The response table, the one call and the one posted callback, over bytes. */
  lemma TableIsExactOverBytes(c: Codec, routes: Routes, events: seq<Event>, uuids: nat -> string, id: string)
    requires c.Lawful()
    ensures TableExact(RunNet(c, routes, events, uuids).world, id)
    ensures PostedOnce(RunNet(c, routes, events, uuids).world, id)
  {
    var es := RunRefines(c, routes, events, uuids);
    TableIsExact(routes, es, id);
    CallbackPostedOnce(routes, es, id);
  }

  lemma OutcomesAreTrueOverBytes(c: Codec, routes: Routes, events: seq<Event>, uuids: nat -> string,
                                 id: string, o: Outcome)
    requires c.Lawful()
    requires var w := RunNet(c, routes, events, uuids).world;
      Posted(id, o) in w.service.posted || (id in w.returned && w.returned[id] == o)
    ensures IsOutcome(RunNet(c, routes, events, uuids).world, id, o)
    ensures var w := RunNet(c, routes, events, uuids).world;
      o.Replied? ==>
        && id in w.requests && id in w.dispatched && w.dispatched[id].request == w.requests[id].message
        && o.reply.requestId == id && IsFirstAnswer(o.reply, w.dispatched[id].bodies)
  {
    var es := RunRefines(c, routes, events, uuids);
    OutcomesAreTrue(routes, es, id, o);
  }

  lemma CallerIsGivenTheAnswerOverBytes(c: Codec, routes: Routes, events: seq<Event>, uuids: nat -> string,
                                        id: string, o: Outcome)
    requires c.Lawful()
    requires var w := RunNet(c, routes, events, uuids).world;
      Posted(id, o) in w.service.posted || (id in w.returned && w.returned[id] == o)
    ensures GivenTheAnswer(RunNet(c, routes, events, uuids).world, id, ResponseOf(o))
  {
    var es := RunRefines(c, routes, events, uuids);
    CallerIsGivenTheAnswer(routes, es, id, o);
  }

  /** A pushed frame read by the client takes and calls no response handler. */
  lemma PushesNeverConsumeOverBytes(c: Codec, routes: Routes, events: seq<Event>, uuids: nat -> string, uuid: string)
    requires c.Lawful() && Possible(c, RunNet(c, routes, events, uuids), Receive, uuid)
    requires var n := RunNet(c, routes, events, uuids); var m := ParseBody(c, FrameBody(n.down.buffer), uuid);
      IsEventCommand(m.command) || m.requestId !in n.world.issued
    ensures var n := RunNet(c, routes, events, uuids); var t := NextNet(c, n, Receive, uuid);
      t.world.service.tables == n.world.service.tables && t.world.calls == n.world.calls
  {
    var es := RunRefines(c, routes, events, uuids);
    var n, s := RunNet(c, routes, events, uuids), Run(routes, es);
    TakeCarries(c, n.down, s.down, uuid);
    StepRefines(c, n, s, Receive, uuid);
    PushesNeverConsume(routes, es);
  }

  lemma RunNetNext(c: Codec, routes: Routes, events: seq<Event>, e: Event, uuids: nat -> string)
    ensures var n, uuid := RunNet(c, routes, events, uuids), uuids(|events|);
      RunNet(c, routes, events + [e], uuids) == if Possible(c, n, e, uuid) then NextNet(c, n, e, uuid) else n
  {
    hide NextNet, Possible;
    assert (events + [e])[..|events|] == events;
  }

  /** The frame read next, if the event reads one. */
  function Reads(c: Codec, n: Net, e: Event, uuid: string): seq<Message> {
    if e.Receive? && Possible(c, n, e, uuid) then [ParseBody(c, FrameBody(n.down.buffer), uuid)] else []
  }

  function NetCalls(c: Codec, n: Net, events: seq<Event>, e: Event, uuid: string): seq<(string, Message)> {
    if Reads(c, n, e, uuid) == [] then [] else HeardNow(n.world, events, Reads(c, n, e, uuid)[0])
  }

  lemma HeardStepOverBytes(c: Codec, routes: Routes, events: seq<Event>, e: Event, uuids: nat -> string)
    requires c.Lawful()
    ensures var n, t := RunNet(c, routes, events, uuids), RunNet(c, routes, events + [e], uuids);
      var uuid := uuids(|events|);
      && t.world.service.heard == n.world.service.heard + NetCalls(c, n, events, e, uuid)
      && t.world.routed == n.world.routed + Reads(c, n, e, uuid)
  {
    hide NextNet, Next, HeardNow;
    var n, uuid := RunNet(c, routes, events, uuids), uuids(|events|);
    var es := RunRefines(c, routes, events, uuids);
    var s := Run(routes, es);
    RunNetNext(c, routes, events, e, uuids);
    if Possible(c, n, e, uuid) {
      StepRefines(c, n, s, e, uuid);
      HeardStep(routes, es, e);
      RoutedNext(s, e);
      if e.Receive? {
        TakeCarries(c, n.down, s.down, uuid);
        SameCalls(s.world, es, events, s.down[0]);
      }
    } else {
      assert n.world.service.heard + [] == n.world.service.heard && n.world.routed + [] == n.world.routed;
    }
  }

  lemma SameCalls(w: World, a: seq<Event>, b: seq<Event>, m: Message)
    requires forall event, command :: Listener(a, event, command) == Listener(b, event, command)
    ensures HeardNow(w, a, m) == HeardNow(w, b, m)
  {
  }

  function HeardOverNet(c: Codec, routes: Routes, events: seq<Event>, uuids: nat -> string): seq<(string, Message)> {
    if events == [] then []
    else
      var k := |events| - 1;
      HeardOverNet(c, routes, events[..k], uuids)
      + NetCalls(c, RunNet(c, routes, events[..k], uuids), events[..k], events[k], uuids(k))
  }

  /** Over bytes too, the long-lived handlers are called exactly for what they subscribed to, in order. */
  lemma {:induction false} ListenersHearTheirsOverBytes(c: Codec, routes: Routes, events: seq<Event>,
                                                        uuids: nat -> string)
    requires c.Lawful()
    ensures RunNet(c, routes, events, uuids).world.service.heard == HeardOverNet(c, routes, events, uuids)
  {
    hide NextNet, Possible, NetCalls;
    if events != [] {
      var k := |events| - 1;
      ListenersHearTheirsOverBytes(c, routes, events[..k], uuids);
      HeardStepOverBytes(c, routes, events[..k], events[k], uuids);
      assert events[..k] + [events[k]] == events;
    }
  }

  /** A subscriber hears every event of its command whose frame is read, once each and in order. */
  lemma {:induction false} SubscriberHearsEverythingOverBytes(
      c: Codec, routes: Routes, before: seq<Event>, later: seq<Event>, uuids: nat -> string, command: Command,
      handler: string)
    requires c.Lawful() && command >= 1000 && Listener(before, true, command) == Some(handler)
    requires forall i :: 0 <= i < |later| ==> !Changes(later[i], true, command)
    ensures HearsAll(RunNet(c, routes, before, uuids).world, RunNet(c, routes, before + later, uuids).world,
                     handler, command)
  {
    hide NextNet, Possible, RunNet, CallsUnder, EachOnce, Listener, HearsAll;
    var a := RunNet(c, routes, before, uuids).world;
    if later == [] {
      assert before + later == before;
      HearsNothingYet(a, handler, command);
    } else {
      var k := |later| - 1;
      var mid, e := before + later[..k], later[k];
      SubscriberHearsEverythingOverBytes(c, routes, before, later[..k], uuids, command, handler);
      ListenerStays(before, later[..k], true, command);
      assert before + later == mid + [e];
      HeardStepOverBytes(c, routes, mid, e, uuids);
      var n := RunNet(c, routes, mid, uuids);
      HearsOneMore(a, n.world, RunNet(c, routes, mid + [e], uuids).world, handler, command,
                   Reads(c, n, e, uuids(|mid|)), NetCalls(c, n, mid, e, uuids(|mid|)));
    }
  }

  lemma {:induction false} TimedOutStaysOverBytes(c: Codec, routes: Routes, before: seq<Event>, later: seq<Event>,
                                                  uuids: nat -> string, id: string)
    requires c.Lawful() && id in RunNet(c, routes, before, uuids).world.timedOut
    ensures id in RunNet(c, routes, before + later, uuids).world.timedOut
  {
    hide NextNet, Possible, RunNet;
    if later == [] {
      assert before + later == before;
    } else {
      var m := |later| - 1;
      var init := before + later[..m];
      TimedOutStaysOverBytes(c, routes, before, later[..m], uuids, id);
      assert before + later == init + [later[m]];
      RunNetNext(c, routes, init, later[m], uuids);
      if Possible(c, RunNet(c, routes, init, uuids), later[m], uuids(|init|)) {
        TimedOutStep(c, routes, init, uuids, later[m], uuids(|init|), id);
      }
    }
  }

  lemma TimedOutStep(c: Codec, routes: Routes, events: seq<Event>, uuids: nat -> string, e: Event, uuid: string,
                     id: string)
    requires c.Lawful() && Possible(c, RunNet(c, routes, events, uuids), e, uuid)
    requires id in RunNet(c, routes, events, uuids).world.timedOut
    ensures id in NextNet(c, RunNet(c, routes, events, uuids), e, uuid).world.timedOut
  {
    hide NextNet, Possible, Next;
    var es := RunRefines(c, routes, events, uuids);
    StepRefines(c, RunNet(c, routes, events, uuids), Run(routes, es), e, uuid);
    InvRun(routes, es);
    assert At(Run(routes, es).world, id);
    OutcomeStays(Run(routes, es), e, id, TimedOut);
  }

  /** However the bytes of a late reply arrive, it reaches nobody. */
  lemma LateReplyReachesNobodyOverBytes(c: Codec, routes: Routes, before: seq<Event>, later: seq<Event>,
                                        uuids: nat -> string, id: string)
    requires c.Lawful() && id in RunNet(c, routes, before, uuids).world.timedOut
    ensures var w := RunNet(c, routes, before + later, uuids).world;
      CallCount(w.calls, id) == 0 && id !in w.service.tables.responses && id !in w.answered
  {
    TimedOutStaysOverBytes(c, routes, before, later, uuids, id);
    TableIsExactOverBytes(c, routes, before + later, uuids, id);
  }

  /** A request for a command nobody serves is never answered. */
  lemma UnservedOnlyTimesOutOverBytes(c: Codec, routes: Routes, events: seq<Event>, uuids: nat -> string, id: string)
    requires c.Lawful()
    requires var w := RunNet(c, routes, events, uuids).world;
      id in w.requests && !w.routes.Serve(w.requests[id].message.command)
    ensures id !in RunNet(c, routes, events, uuids).world.answered
  {
    var es := RunRefines(c, routes, events, uuids);
    UnservedOnlyTimesOut(routes, es, id);
  }

  /** An idle link below 2^32 buffered bytes holds no message: nothing is stuck between the two ends. */
  lemma IdleLinkIsEmpty(c: Codec, l: Link, ms: seq<Message>)
    requires Carries(c, l, ms) && l.wire == [] && !Ready(l.buffer) && |l.buffer| < TWO_TO_THE_32
    ensures ms == []
  {
    ReadyIsSound(l.buffer);
    assert l.buffer + [] == l.buffer;
    if ms != [] {
      assert Packable(c, ms[0]);
      FrameRoundTrip(c.encode(ms[0].ToJson()), PackAll(c, ms[1..]));
    }
  }

  /** Once everything sent has arrived and both parsers are drained, a request that did not time out is
      answered exactly if the server produced a deliverable reply for it, and still waits exactly if not. */
  lemma DrainedMeansAnswered(c: Codec, routes: Routes, events: seq<Event>, uuids: nat -> string, id: string)
    requires c.Lawful()
    requires var n := RunNet(c, routes, events, uuids);
      && n.down.wire == [] && !Ready(n.down.buffer) && |n.down.buffer| < TWO_TO_THE_32
      && id in n.world.requests && id !in n.world.timedOut
    ensures var w := RunNet(c, routes, events, uuids).world;
      && (id in w.answered <==> FirstReply(RepliesTo(w, id)).Some?)
      && (id in w.service.tables.responses <==> FirstReply(RepliesTo(w, id)).None?)
  {
    var es := RunRefines(c, routes, events, uuids);
    IdleLinkIsEmpty(c, RunNet(c, routes, events, uuids).down, Run(routes, es).down);
    WhoStillWaits(routes, es, id);
  }

  /** And then it has read everything the server wrote, so every subscriber has heard all of it. */
  lemma DrainedMeansHeard(c: Codec, routes: Routes, events: seq<Event>, uuids: nat -> string)
    requires c.Lawful()
    requires var n := RunNet(c, routes, events, uuids);
      n.down.wire == [] && !Ready(n.down.buffer) && |n.down.buffer| < TWO_TO_THE_32
    ensures RunNet(c, routes, events, uuids).world.routed == RunNet(c, routes, events, uuids).world.sent
  {
    var es := RunRefines(c, routes, events, uuids);
    IdleLinkIsEmpty(c, RunNet(c, routes, events, uuids).down, Run(routes, es).down);
    EverythingRead(routes, es);
  }
}
