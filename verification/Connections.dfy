/** Live connections and the index from users to them. */
module Connections {
  import opened Messages
  import opened PacketParsing

  datatype Conn = Conn(userId: string, authenticated: bool, connected: bool)

  datatype Index = Index(conns: map<string, Conn>, users: map<string, string>)

  datatype Op =
    | Open(clientId: string)
    | SetUser(clientId: string, userId: string)
    | SetAuthenticated(clientId: string, value: bool)
    | LinkDown(clientId: string)
    | Remove(clientId: string)

  const NONE := Index(map[], map[])

  function Unregister(users: map<string, string>, userId: string): map<string, string> {
    if userId == "" then users else users - {userId}
  }

  function Register(users: map<string, string>, userId: string, clientId: string): map<string, string> {
    if userId == "" || clientId == "" then users else users[userId := clientId]
  }

  /** Client ids are new, and only live connections act. */
  function Apply(x: Index, op: Op): Index {
    match op
    case Open(c) =>
      if c == "" || c in x.conns then x else x.(conns := x.conns[c := Conn("", false, true)])
    case SetUser(c, u) =>
      if c !in x.conns || x.conns[c].userId == u then x
      else Index(x.conns[c := x.conns[c].(userId := u)], Register(Unregister(x.users, x.conns[c].userId), u, c))
    case SetAuthenticated(c, b) =>
      if c !in x.conns then x else x.(conns := x.conns[c := x.conns[c].(authenticated := b)])
    case LinkDown(c) =>
      if c !in x.conns then x else x.(conns := x.conns[c := x.conns[c].(connected := false)])
    case Remove(c) =>
      if c !in x.conns then x else Index(x.conns - {c}, Unregister(x.users, x.conns[c].userId))
  }

  function IndexAfter(ops: seq<Op>): Index {
    if ops == [] then NONE else Apply(IndexAfter(ops[..|ops| - 1]), ops[|ops| - 1])
  }

  /** getConnectionByUserId: an unknown user or an empty client id finds nobody. */
  function Lookup(x: Index, userId: string): Option<string> {
    if userId in x.users && x.users[userId] != "" && x.users[userId] in x.conns then Some(x.users[userId]) else None
  }

  /** A message to a user is written to the connection found for it, if that is up. */
  function Deliver(x: Index, boxes: map<string, seq<Message>>, userId: string, m: Message): map<string, seq<Message>> {
    match Lookup(x, userId)
    case Some(c) => if x.conns[c].connected && c in boxes then boxes[c := boxes[c] + [m]] else boxes
    case None => boxes
  }

  /** A message to everybody is written once to every connection that is up. */
  function ToAll(x: Index, boxes: map<string, seq<Message>>, m: Message): map<string, seq<Message>> {
    map c | c in boxes :: if c in x.conns && x.conns[c].connected then boxes[c] + [m] else boxes[c]
  }

  // ---------- What every reachable index satisfies ----------

  /** An entry points to a live connection of that very user. */
  ghost predicate Sound(x: Index) {
    && "" !in x.conns
    && (forall u :: u in x.users ==> u != "" && x.users[u] in x.conns && x.conns[x.users[u]].userId == u)
  }

  lemma SoundStep(x: Index, op: Op)
    requires Sound(x)
    ensures Sound(Apply(x, op))
  {
  }

  lemma {:induction false} SoundRun(ops: seq<Op>)
    ensures Sound(IndexAfter(ops))
  {
    if ops != [] {
      SoundRun(ops[..|ops| - 1]);
      SoundStep(IndexAfter(ops[..|ops| - 1]), ops[|ops| - 1]);
    }
  }

  /** A lookup gives nothing or a live connection whose user is the one asked for, so no two users share
      a connection. */
  lemma LookupIsSound(ops: seq<Op>, u: string, v: string)
    ensures var x := IndexAfter(ops);
      && (Lookup(x, u).Some? ==> Lookup(x, u).value in x.conns && x.conns[Lookup(x, u).value].userId == u)
      && (Lookup(x, u).Some? <==> u in x.users)
      && (u != v && Lookup(x, u).Some? ==> Lookup(x, u) != Lookup(x, v))
  {
    SoundRun(ops);
  }

  // ---------- What the history says ----------

  /** A connection from its opening to its removal: its last user and flag, and whether its link is still up. */
  function Past(ops: seq<Op>, c: string): Option<Conn> {
    if ops == [] then None
    else
      var was := Past(ops[..|ops| - 1], c);
      match ops[|ops| - 1]
      case Open(d) => if d == c && c != "" && was.None? then Some(Conn("", false, true)) else was
      case SetUser(d, u) =>
        if d == c && was.Some? then Some(Conn(u, was.value.authenticated, was.value.connected)) else was
      case SetAuthenticated(d, b) =>
        if d == c && was.Some? then Some(Conn(was.value.userId, b, was.value.connected)) else was
      case LinkDown(d) =>
        if d == c && was.Some? then Some(Conn(was.value.userId, was.value.authenticated, false)) else was
      case Remove(d) => if d == c then None else was
  }

  /** Every connection is what its own history makes it; what others do never shows. */
  lemma {:induction false} ConnectionsAreTheirPast(ops: seq<Op>, c: string)
    ensures var x := IndexAfter(ops);
      && (c in x.conns <==> Past(ops, c).Some?)
      && (c in x.conns ==> x.conns[c] == Past(ops, c).value)
  {
    if ops != [] {
      ConnectionsAreTheirPast(ops[..|ops| - 1], c);
      SoundRun(ops[..|ops| - 1]);
    }
  }

  /** Who is found for a user after a step: the connection that has just become that user's, the one found before,
      or, once that connection (or any other of this user) changes its user or goes, nobody. */
  lemma LookupStep(ops: seq<Op>, op: Op, u: string)
    requires u != ""
    ensures var x, y := IndexAfter(ops), IndexAfter(ops + [op]);
      match op
      case SetUser(c, v) =>
        Lookup(y, u) == if c !in x.conns || x.conns[c].userId == v then Lookup(x, u)
                        else if v == u then Some(c)
                        else if x.conns[c].userId == u then None
                        else Lookup(x, u)
      case Remove(c) =>
        Lookup(y, u) == if c in x.conns && x.conns[c].userId == u then None else Lookup(x, u)
      case _ => Lookup(y, u) == Lookup(x, u)
  {
    SoundRun(ops);
    assert (ops + [op])[..|ops|] == ops;
  }

  /** A message to a user is written at most once, to a connection of that user, and to nobody else's. */
  lemma DeliverReachesThatUser(ops: seq<Op>, boxes: map<string, seq<Message>>, u: string, m: Message)
    requires boxes.Keys == IndexAfter(ops).conns.Keys
    ensures var x := IndexAfter(ops); var after := Deliver(x, boxes, u, m);
      && after.Keys == boxes.Keys
      && forall c :: c in boxes ==>
           if Lookup(x, u) == Some(c) && x.conns[c].connected then x.conns[c].userId == u && after[c] == boxes[c] + [m]
           else after[c] == boxes[c]
  {
    SoundRun(ops);
  }

  /** A message to everybody is written once to every connection whose link has not gone down since it was opened. */
  lemma EverybodyIsReached(ops: seq<Op>, boxes: map<string, seq<Message>>, m: Message)
    requires boxes.Keys == IndexAfter(ops).conns.Keys
    ensures var after := ToAll(IndexAfter(ops), boxes, m);
      && after.Keys == boxes.Keys
      && forall c :: c in boxes ==>
           Past(ops, c).Some? && after[c] == boxes[c] + if Past(ops, c).value.connected then [m] else []
  {
    forall c | c in boxes
      ensures Past(ops, c).Some? && IndexAfter(ops).conns[c] == Past(ops, c).value
      ensures boxes[c] + [] == boxes[c] {
      ConnectionsAreTheirPast(ops, c);
    }
  }

  // ---------- When the index is the exact inverse ----------

  /** Every live connection with a user is the one found for that user. */
  ghost predicate Inverse(x: Index) {
    forall c :: c in x.conns && x.conns[c].userId != "" ==> Lookup(x, x.conns[c].userId) == Some(c)
  }

  ghost predicate OneEach(x: Index) {
    forall c, d :: c in x.conns && d in x.conns && x.conns[c].userId == x.conns[d].userId != "" ==> c == d
  }

  /** A step from an exact index leaves it exact exactly if it puts no user on two live connections. */
  lemma InverseStep(x: Index, op: Op)
    requires Sound(x) && Inverse(x)
    ensures Inverse(Apply(x, op)) <==> OneEach(Apply(x, op))
  {
    var y := Apply(x, op);
    SoundStep(x, op);
    if Inverse(y) {
      forall c, d | c in y.conns && d in y.conns && y.conns[c].userId == y.conns[d].userId != "" ensures c == d {
        assert Lookup(y, y.conns[c].userId) == Some(c);
        assert Lookup(y, y.conns[d].userId) == Some(d);
      }
    }
    if OneEach(y) {
      forall c | c in y.conns && y.conns[c].userId != "" ensures Lookup(y, y.conns[c].userId) == Some(c) {
        var u := y.conns[c].userId;
        if c in x.conns && x.conns[c].userId == u {
          assert Lookup(x, u) == Some(c);
          EntryKept(x, op, c);
        }
      }
    }
  }

  /** An entry survives while its connection keeps its user and nobody else takes or gives up that user. */
  lemma EntryKept(x: Index, op: Op, c: string)
    requires Sound(x) && Inverse(x) && c in x.conns && x.conns[c].userId != ""
    requires c in Apply(x, op).conns && Apply(x, op).conns[c].userId == x.conns[c].userId
    requires OneEach(Apply(x, op))
    ensures Lookup(Apply(x, op), x.conns[c].userId) == Some(c)
  {
    var u, y := x.conns[c].userId, Apply(x, op);
    assert Lookup(x, u) == Some(c);
    forall d | d in x.conns && x.conns[d].userId == u ensures d == c {
      assert Lookup(x, x.conns[d].userId) == Some(d);
    }
    if op.SetUser? && op.clientId in x.conns && op.clientId != c && x.conns[op.clientId].userId != op.userId {
      assert y.conns[op.clientId].userId == op.userId;
    }
  }

  /** In a run where no two live connections ever hold the same user, the index is the exact inverse of the
      connections' users. */
  lemma {:induction false} InverseRun(ops: seq<Op>)
    requires forall k :: 0 <= k <= |ops| ==> OneEach(IndexAfter(ops[..k]))
    ensures Inverse(IndexAfter(ops))
  {
    assert ops[..|ops|] == ops;
    if ops != [] {
      var init := ops[..|ops| - 1];
      forall k | 0 <= k <= |init| ensures OneEach(IndexAfter(init[..k])) {
        assert init[..k] == ops[..k];
      }
      InverseRun(init);
      SoundRun(init);
      InverseStep(IndexAfter(init), ops[|ops| - 1]);
    }
  }

  ghost predicate InverseAllAlong(ops: seq<Op>) {
    Inverse(IndexAfter(ops)) && (ops != [] ==> InverseAllAlong(ops[..|ops| - 1]))
  }

  ghost predicate OneEachAllAlong(ops: seq<Op>) {
    OneEach(IndexAfter(ops)) && (ops != [] ==> OneEachAllAlong(ops[..|ops| - 1]))
  }

  lemma NobodyIsConnected()
    ensures Inverse(NONE) && OneEach(NONE)
  {
  }

  /** Over whole runs: the index is the exact inverse all along exactly if no user was ever on two live
      connections. */
  lemma {:induction false} InverseThroughout(ops: seq<Op>)
    ensures InverseAllAlong(ops) <==> OneEachAllAlong(ops)
  {
    NobodyIsConnected();
    hide Inverse, OneEach, Apply;
    if ops != [] {
      var init := ops[..|ops| - 1];
      InverseThroughout(init);
      SoundRun(init);
      if InverseAllAlong(init) {
        InverseStep(IndexAfter(init), ops[|ops| - 1]);
      }
    }
  }

  /** The guard a login could check: from an exact index, it stays exact exactly if no other live connection
      already holds the user. */
  lemma LoginKeepsInverse(x: Index, c: string, u: string)
    requires Sound(x) && Inverse(x) && c in x.conns && u != ""
    ensures Inverse(Apply(x, SetUser(c, u))) <==> forall d :: d in x.conns && d != c ==> x.conns[d].userId != u
  {
    var y := Apply(x, SetUser(c, u));
    InverseStep(x, SetUser(c, u));
    assert y.conns[c].userId == u;
    if OneEach(y) {
      forall d | d in x.conns && d != c ensures x.conns[d].userId != u {
        assert y.conns[d] == x.conns[d];
      }
    }
    if forall d :: d in x.conns && d != c ==> x.conns[d].userId != u {
      forall a, b | a in y.conns && b in y.conns && y.conns[a].userId == y.conns[b].userId != "" ensures a == b {
        if a != c && b != c {
          assert Lookup(x, x.conns[a].userId) == Some(a) && Lookup(x, x.conns[b].userId) == Some(b);
        }
      }
    }
  }

  /** One user on two sockets: closing either drops the shared entry, and the other socket is not found,
      although by then no user is on two connections any more. */
  lemma SecondSocketIsLost()
    ensures var both := Apply(Apply(Apply(Apply(NONE, Open("a")), Open("b")), SetUser("a", "u")), SetUser("b", "u"));
      var x := Apply(both, Remove("a"));
      "b" in x.conns && x.conns["b"].userId == "u" && Lookup(x, "u") == None && OneEach(x) && !Inverse(x)
  {
    var x2 := Apply(Apply(NONE, Open("a")), Open("b"));
    assert x2 == Index(map["a" := Conn("", false, true), "b" := Conn("", false, true)], map[]);
    var x3 := Apply(x2, SetUser("a", "u"));
    assert x3 == Index(map["a" := Conn("u", false, true), "b" := Conn("", false, true)], map["u" := "a"]);
    var x4 := Apply(x3, SetUser("b", "u"));
    assert x4 == Index(map["a" := Conn("u", false, true), "b" := Conn("u", false, true)], map["u" := "b"]);
  }

  /** Both disconnect slots remove the connection; the second call finds nothing left to do. */
  lemma RemoveTwice(x: Index, c: string)
    ensures Apply(Apply(x, Remove(c)), Remove(c)) == Apply(x, Remove(c))
    ensures c !in Apply(x, Remove(c)).conns
  {
  }

  // ---------- The two server classes ----------

  class ClientConnection {
    const clientId: string
    var userId: string
    var authenticated: bool
    var connected: bool
    var written: seq<Message>
    const packetParser: PacketParser

    ghost function View(): Conn
      reads this
    {
      Conn(userId, authenticated, connected)
    }

    constructor (clientId: string)
      ensures this.clientId == clientId && View() == Conn("", false, true) && written == []
      ensures fresh(packetParser) && packetParser.Valid() && packetParser.buffer == []
    {
      this.clientId := clientId;
      userId, authenticated, connected, written := "", false, true, [];
      packetParser := new PacketParser();
    }

    method SendMessage(m: Message)
      modifies this`written
      ensures written == if connected then old(written) + [m] else old(written)
    {
      if !connected { return; }
      written := written + [m];
    }

    /** Keeps the manager's index in step with the new user. */
    method SetUserId(manager: ConnectionManager, newUserId: string)
      requires manager.Valid() && clientId in manager.connections && manager.connections[clientId] == this
      modifies this`userId, manager`userToClientMap
      ensures manager.Valid()
      ensures manager.View() == Apply(old(manager.View()), SetUser(clientId, newUserId))
    {
      hide Register, Unregister;
      if userId == newUserId { return; }
      ghost var before := manager.View();
      Rename(manager, newUserId);
      ghost var after := manager.View().conns;
      assert after == before.conns[clientId := before.conns[clientId].(userId := newUserId)] by {
        forall c | c in manager.connections && c != clientId ensures after[c] == before.conns[c] {
          assert manager.connections[c] != this;
        }
      }
    }

    method Rename(manager: ConnectionManager, newUserId: string)
      modifies this`userId, manager`userToClientMap
      ensures userId == newUserId
      ensures manager.userToClientMap
           == Register(Unregister(old(manager.userToClientMap), old(userId)), newUserId, clientId)
    {
      if userId != "" {
        manager.UnregisterUser(userId);
      }
      userId := newUserId;
      if userId != "" {
        manager.RegisterUser(userId, clientId);
      }
    }
  }

  class ConnectionManager {
    var connections: map<string, ClientConnection>
    var userToClientMap: map<string, string>

    ghost predicate Valid()
      reads this
    {
      "" !in connections && forall c :: c in connections ==> connections[c].clientId == c
    }

    ghost function View(): Index
      reads this, connections.Values
    {
      Index(map c | c in connections :: connections[c].View(), userToClientMap)
    }

    constructor ()
      ensures Valid() && View() == NONE
    {
      connections, userToClientMap := map[], map[];
    }

    method OnNewConnection(connection: ClientConnection)
      requires Valid() && connection.clientId != "" && connection.clientId !in connections
      requires connection.View() == Conn("", false, true)
      modifies this`connections
      ensures Valid() && connections == old(connections)[connection.clientId := connection]
      ensures View() == Apply(old(View()), Open(connection.clientId))
    {
      connections := connections[connection.clientId := connection];
    }

    method RemoveConnection(clientId: string)
      requires Valid()
      modifies this
      ensures Valid() && connections == old(connections) - {clientId}
      ensures View() == Apply(old(View()), Remove(clientId))
    {
      if clientId !in connections {
        assert connections - {clientId} == connections;
        return;
      }
      var conn := connections[clientId];
      if conn.userId != "" {
        userToClientMap := userToClientMap - {conn.userId};
      }
      connections := connections - {clientId};
    }

    method RegisterUser(userId: string, clientId: string)
      modifies this`userToClientMap
      ensures userToClientMap == Register(old(userToClientMap), userId, clientId)
    {
      if userId == "" || clientId == "" { return; }
      userToClientMap := userToClientMap[userId := clientId];
    }

    method UnregisterUser(userId: string)
      modifies this`userToClientMap
      ensures userToClientMap == Unregister(old(userToClientMap), userId)
    {
      if userId == "" { return; }
      userToClientMap := userToClientMap - {userId};
    }

    method GetConnectionByUserId(userId: string) returns (conn: ClientConnection?)
      requires Valid()
      ensures match Lookup(View(), userId)
              case None => conn == null
              case Some(c) => c in connections && conn == connections[c]
    {
      var clientId := if userId in userToClientMap then userToClientMap[userId] else "";
      if clientId == "" { return null; }
      conn := if clientId in connections then connections[clientId] else null;
    }

    /** What each live connection has been sent. */
    ghost function Outboxes(): map<string, seq<Message>>
      reads this, connections.Values
    {
      map c | c in connections :: connections[c].written
    }

    method SendToUser(userId: string, m: Message)
      requires Valid()
      modifies connections.Values`written
      ensures Valid() && View() == old(View())
      ensures Outboxes() == Deliver(View(), old(Outboxes()), userId, m)
    {
      ghost var before := Outboxes();
      var conn := GetConnectionByUserId(userId);
      if conn != null {
        conn.SendMessage(m);
        assert forall c :: c in connections && c != conn.clientId ==> connections[c] != conn;
      }
    }

    method SendTo(clientId: string, m: Message)
      requires Valid() && clientId in connections
      modifies connections.Values`written
      ensures connections[clientId].written == if connections[clientId].connected
                                               then old(connections[clientId].written) + [m]
                                               else old(connections[clientId].written)
      ensures forall c :: c in connections && c != clientId ==> connections[c].written == old(connections[c].written)
    {
      connections[clientId].SendMessage(m);
      assert forall c :: c in connections && c != clientId ==> connections[c] != connections[clientId];
    }

    /** The loop over the connections. */
    method WriteToAll(m: Message)
      requires Valid()
      modifies connections.Values`written
      ensures forall c :: c in connections ==>
                connections[c].written == if connections[c].connected then old(connections[c].written) + [m]
                                          else old(connections[c].written)
    {
      var rest := connections.Keys;
      while rest != {}
        invariant rest <= connections.Keys
        invariant forall c :: c in connections && (c in rest || !connections[c].connected) ==>
                    connections[c].written == old(connections[c].written)
        invariant forall c :: c in connections && c !in rest && connections[c].connected ==>
                    connections[c].written == old(connections[c].written) + [m]
        decreases |rest|
      {
        var c :| c in rest;
        SendTo(c, m);
        rest := rest - {c};
      }
    }

    method BroadcastMessage(m: Message)
      requires Valid()
      modifies connections.Values`written
      ensures Valid() && View() == old(View())
      ensures Outboxes() == ToAll(View(), old(Outboxes()), m)
    {
      WriteToAll(m);
    }
  }
}
