/** Study rooms: lifecycle, the user-to-room index and broadcasts over the connection index. */
module Rooms {
  import opened Messages
  import C = Connections

  datatype RoomState = Created | Active | Paused | Closed

  datatype Note = Note(id: string, userId: string, displayName: string, text: string, page: int, timestamp: int)

  datatype Room = Room(bookId: string, host: string, participants: seq<string>, state: RoomState,
                       page: int, zoom: real, synced: bool, notes: seq<Note>)

  datatype Lobby = Lobby(sessions: map<string, Room>, userTo: map<string, string>)

  datatype Op =
    | Create(sid: string, bookId: string, user: string)
    | Join(sid: string, user: string)
    | Leave(sid: string, user: string)
    | Close(sid: string)
    | SyncPage(sid: string, page: int, zoom: real)
    | AddNote(sid: string, note: Note)

  const EMPTY := Lobby(map[], map[])

  function RemoveFirst(s: seq<string>, x: string): seq<string> {
    if s == [] then [] else if s[0] == x then s[1..] else [s[0]] + RemoveFirst(s[1..], x)
  }

  function Put(s: Lobby, sid: string, r: Room): Lobby {
    s.(sessions := s.sessions[sid := r])
  }

  function JoinRoom(r: Room, user: string): Room {
    if user in r.participants then r else r.(participants := r.participants + [user], state := Active)
  }

  function LeaveRoom(r: Room, user: string): Room {
    var left := RemoveFirst(r.participants, user);
    r.(participants := left, state := if left == [] then Closed else r.state)
  }

  /** Session ids are new; an operation on an unknown room changes nothing. */
  function Apply(s: Lobby, op: Op): Lobby {
    match op
    case Create(sid, bookId, user) =>
      if sid in s.sessions then s
      else Lobby(s.sessions[sid := Room(bookId, user, [user], Created, 0, 1.0, false, [])], s.userTo[user := sid])
    case Join(sid, user) =>
      if sid !in s.sessions || s.sessions[sid].state == Closed || user in s.sessions[sid].participants then s
      else Lobby(s.sessions[sid := JoinRoom(s.sessions[sid], user)], s.userTo[user := sid])
    case Leave(sid, user) =>
      if sid !in s.sessions then s
      else Lobby(s.sessions[sid := LeaveRoom(s.sessions[sid], user)], s.userTo - {user})
    case Close(sid) =>
      if sid !in s.sessions then s
      else Lobby(s.sessions[sid := s.sessions[sid].(state := Closed)],
                 s.userTo - (set u | u in s.sessions[sid].participants))
    case SyncPage(sid, page, zoom) =>
      if sid !in s.sessions then s else Put(s, sid, s.sessions[sid].(page := page, zoom := zoom, synced := true))
    case AddNote(sid, note) =>
      if sid !in s.sessions then s else Put(s, sid, s.sessions[sid].(notes := s.sessions[sid].notes + [note]))
  }

  function After(s: Lobby, ops: seq<Op>): Lobby {
    if ops == [] then s else Apply(After(s, ops[..|ops| - 1]), ops[|ops| - 1])
  }

  // ---------- What every reachable state satisfies ----------

  ghost predicate NoRepeats(s: seq<string>) {
    forall i, j :: 0 <= i < j < |s| ==> s[i] != s[j]
  }

  /** Never Paused; somebody is in every room that is not Closed, and only the host while it is Created. */
  ghost predicate GoodRoom(r: Room) {
    && NoRepeats(r.participants)
    && r.state != Paused
    && (r.state != Closed ==> r.participants != [])
    && (r.state == Created ==> r.participants == [r.host])
  }

  /** A user's entry points to a room that exists, is not Closed and lists the user. */
  ghost predicate GoodEntry(s: Lobby, user: string) {
    user in s.userTo ==>
      && s.userTo[user] in s.sessions
      && s.sessions[s.userTo[user]].state != Closed
      && user in s.sessions[s.userTo[user]].participants
  }

  ghost predicate Inv(s: Lobby) {
    && (forall sid :: sid in s.sessions ==> GoodRoom(s.sessions[sid]))
    && (forall user :: GoodEntry(s, user))
  }

  lemma {:induction false} RemoveFirstKeeps(s: seq<string>, x: string)
    requires NoRepeats(s)
    ensures NoRepeats(RemoveFirst(s, x))
    ensures forall y :: y in RemoveFirst(s, x) <==> y in s && y != x
    ensures x !in s ==> RemoveFirst(s, x) == s
  {
    if s != [] {
      RemoveFirstKeeps(s[1..], x);
      assert s == [s[0]] + s[1..];
      assert forall y :: y in s <==> y == s[0] || y in s[1..];
      assert s[0] !in s[1..];
      if s[0] != x {
        assert s[0] !in RemoveFirst(s[1..], x);
      }
    }
  }

  lemma RoomStep(s: Lobby, op: Op, sid: string)
    requires sid in Apply(s, op).sessions && (sid in s.sessions ==> GoodRoom(s.sessions[sid]))
    ensures GoodRoom(Apply(s, op).sessions[sid])
  {
    if op.Leave? && op.sid == sid {
      RemoveFirstKeeps(s.sessions[sid].participants, op.user);
    }
  }

  lemma EntryStep(s: Lobby, op: Op, user: string)
    requires Inv(s)
    ensures GoodEntry(Apply(s, op), user)
  {
    assert GoodEntry(s, user);
    if op.Leave? && op.sid in s.sessions {
      RemoveFirstKeeps(s.sessions[op.sid].participants, op.user);
      if user != op.user && user in s.userTo && s.userTo[user] == op.sid {
        assert user in LeaveRoom(s.sessions[op.sid], op.user).participants;
      }
    }
  }

  lemma InvStep(s: Lobby, op: Op)
    requires Inv(s)
    ensures Inv(Apply(s, op))
  {
    var t := Apply(s, op);
    forall sid | sid in t.sessions ensures GoodRoom(t.sessions[sid]) {
      RoomStep(s, op, sid);
    }
    forall user ensures GoodEntry(t, user) {
      EntryStep(s, op, user);
    }
  }

  lemma {:induction false} InvRun(ops: seq<Op>)
    ensures Inv(After(EMPTY, ops))
  {
    if ops != [] {
      InvRun(ops[..|ops| - 1]);
      InvStep(After(EMPTY, ops[..|ops| - 1]), ops[|ops| - 1]);
    }
  }

  /** The user index over every run. */
  lemma UserIndexIsSound(ops: seq<Op>, user: string)
    requires user in After(EMPTY, ops).userTo
    ensures var s := After(EMPTY, ops); var sid := s.userTo[user];
      sid in s.sessions && s.sessions[sid].state != Closed && user in s.sessions[sid].participants
  {
    InvRun(ops);
    assert GoodEntry(After(EMPTY, ops), user);
  }

  /** The life of one room over every run. */
  lemma RoomsAreGood(ops: seq<Op>, sid: string)
    requires sid in After(EMPTY, ops).sessions
    ensures GoodRoom(After(EMPTY, ops).sessions[sid])
  {
    InvRun(ops);
  }

  /** How a room may change: Closed is final, a started room never goes back to Created, notes are only
      appended, and the book and host stay. */
  ghost predicate Evolves(r: Room, t: Room) {
    && (r.state == Closed ==> t.state == Closed)
    && (r.state != Created ==> t.state != Created)
    && r.notes <= t.notes
    && r.bookId == t.bookId && r.host == t.host
  }

  lemma {:induction false} RoomHistory(s: Lobby, ops: seq<Op>, sid: string)
    requires Inv(s) && sid in s.sessions
    ensures Inv(After(s, ops)) && sid in After(s, ops).sessions
    ensures Evolves(s.sessions[sid], After(s, ops).sessions[sid])
  {
    hide Apply, Inv;
    if ops != [] {
      var init, op := ops[..|ops| - 1], ops[|ops| - 1];
      RoomHistory(s, init, sid);
      InvStep(After(s, init), op);
      RoomEvolves(After(s, init), op, sid);
    }
  }

  lemma RoomEvolves(s: Lobby, op: Op, sid: string)
    requires Inv(s) && sid in s.sessions
    ensures sid in Apply(s, op).sessions && Evolves(s.sessions[sid], Apply(s, op).sessions[sid])
  {
    hide GoodEntry;
  }

  // ---------- What the history says of a room ----------

  predicate Made(ops: seq<Op>, sid: string) {
    ops != [] && (Made(ops[..|ops| - 1], sid) || (ops[|ops| - 1].Create? && ops[|ops| - 1].sid == sid))
  }

  /** Its book and host: those of the operation that made it. */
  function Origin(ops: seq<Op>, sid: string): (string, string) {
    if ops == [] then ("", "")
    else
      var init, op := ops[..|ops| - 1], ops[|ops| - 1];
      if op.Create? && op.sid == sid && !Made(init, sid) then (op.bookId, op.user) else Origin(init, sid)
  }

  function Without(s: seq<string>, x: string): seq<string> {
    if s == [] then [] else if s[0] == x then Without(s[1..], x) else [s[0]] + Without(s[1..], x)
  }

  /** Who is in it, longest member first: the host, then whoever joined while it was open, less whoever left since. */
  function Members(ops: seq<Op>, sid: string): seq<string> {
    if ops == [] then []
    else
      var init := ops[..|ops| - 1];
      var was := Members(init, sid);
      match ops[|ops| - 1]
      case Create(r, _, u) => if r == sid && !Made(init, sid) then [u] else was
      case Join(r, u) => if r == sid && Open(init, sid) && u !in was then was + [u] else was
      case Leave(r, u) => if r == sid then Without(was, u) else was
      case _ => was
  }

  /** Open from its making until it is closed or its last member leaves. */
  predicate Open(ops: seq<Op>, sid: string) {
    ops != [] &&
    var init := ops[..|ops| - 1];
    match ops[|ops| - 1]
    case Create(r, _, _) => Open(init, sid) || (r == sid && !Made(init, sid))
    case Leave(r, u) => Open(init, sid) && (r == sid ==> Without(Members(init, sid), u) != [])
    case Close(r) => Open(init, sid) && r != sid
    case _ => Open(init, sid)
  }

  /** Whether anybody ever joined the host. */
  predicate Joined(ops: seq<Op>, sid: string) {
    ops != [] &&
    var init, op := ops[..|ops| - 1], ops[|ops| - 1];
    Joined(init, sid) || (op.Join? && op.sid == sid && Open(init, sid) && op.user !in Members(init, sid))
  }

  /** The notes added to it since it was made, in order. */
  function NotesAdded(ops: seq<Op>, sid: string): seq<Note> {
    if ops == [] then []
    else
      var init, op := ops[..|ops| - 1], ops[|ops| - 1];
      NotesAdded(init, sid) + if op.AddNote? && op.sid == sid && Made(init, sid) then [op.note] else []
  }

  /** The page and zoom last turned to since it was made, if any. */
  function LastTurn(ops: seq<Op>, sid: string): Option<(int, real)> {
    if ops == [] then None
    else
      var init, op := ops[..|ops| - 1], ops[|ops| - 1];
      if op.SyncPage? && op.sid == sid && Made(init, sid) then Some((op.page, op.zoom)) else LastTurn(init, sid)
  }

  /** The room a user entered last, unless something since made the index forget it. */
  function Entered(ops: seq<Op>, user: string): Option<string> {
    if ops == [] then None
    else
      var init := ops[..|ops| - 1];
      match ops[|ops| - 1]
      case Create(r, _, u) => if u == user && !Made(init, r) then Some(r) else Entered(init, user)
      case Join(r, u) => if u == user && Open(init, r) && u !in Members(init, r) then Some(r) else Entered(init, user)
      case Leave(r, u) => if u == user && Made(init, r) then None else Entered(init, user)
      case Close(r) => if user in Members(init, r) then None else Entered(init, user)
      case _ => Entered(init, user)
  }

  lemma {:induction false} RemoveFirstIsWithout(s: seq<string>, x: string)
    requires NoRepeats(s)
    ensures RemoveFirst(s, x) == Without(s, x)
  {
    if s != [] {
      assert s[0] !in s[1..];
      assert NoRepeats(s[1..]);
      RemoveFirstIsWithout(s[1..], x);
      if s[0] == x {
        RemoveFirstKeeps(s[1..], x);
      }
    }
  }

  ghost predicate IsPast(s: Lobby, ops: seq<Op>, sid: string) {
    && (sid in s.sessions <==> Made(ops, sid))
    && (Open(ops, sid) ==> Made(ops, sid))
    && (!Made(ops, sid) ==> Members(ops, sid) == [])
    && (sid in s.sessions ==>
          var r := s.sessions[sid];
          && (r.bookId, r.host) == Origin(ops, sid)
          && r.participants == Members(ops, sid)
          && r.state == (if !Open(ops, sid) then Closed else if Joined(ops, sid) then Active else Created))
  }

  lemma PastStep(s: Lobby, init: seq<Op>, op: Op, sid: string)
    requires Inv(s) && IsPast(s, init, sid) && (!Made(init, sid) ==> !Joined(init, sid))
    ensures IsPast(Apply(s, op), init + [op], sid)
    ensures !Made(init + [op], sid) ==> !Joined(init + [op], sid)
  {
    hide GoodEntry;
    assert (init + [op])[..|init|] == init;
    if op.Leave? && op.sid == sid && sid in s.sessions {
      RemoveFirstIsWithout(s.sessions[sid].participants, op.user);
    }
  }

  /** A room is what the operations on it made of it, over every run: its book and host, its members in the order they
      came, whether it is Created, Active or Closed. */
  lemma {:induction false} RoomIsItsPast(ops: seq<Op>, sid: string)
    ensures IsPast(After(EMPTY, ops), ops, sid)
    ensures !Made(ops, sid) ==> !Joined(ops, sid)
  {
    if ops != [] {
      var init, op := ops[..|ops| - 1], ops[|ops| - 1];
      RoomIsItsPast(init, sid);
      InvRun(init);
      PastStep(After(EMPTY, init), init, op, sid);
      assert init + [op] == ops;
    }
  }

  lemma RoomMade(ops: seq<Op>, sid: string)
    ensures sid in After(EMPTY, ops).sessions <==> Made(ops, sid)
  {
    RoomIsItsPast(ops, sid);
  }

  lemma NotesStep(s: Lobby, op: Op, sid: string)
    requires sid in s.sessions
    ensures sid in Apply(s, op).sessions
    ensures Apply(s, op).sessions[sid].notes
         == s.sessions[sid].notes + if op.AddNote? && op.sid == sid then [op.note] else []
  {
    hide RemoveFirst;
    assert s.sessions[sid].notes + [] == s.sessions[sid].notes;
  }

  /** Its notes are those added to it since it was made, in order, over every run. */
  lemma {:induction false} NotesAreThoseAdded(ops: seq<Op>, sid: string)
    ensures !Made(ops, sid) ==> NotesAdded(ops, sid) == []
    ensures sid in After(EMPTY, ops).sessions ==> After(EMPTY, ops).sessions[sid].notes == NotesAdded(ops, sid)
  {
    hide RemoveFirst;
    if ops != [] {
      var init := ops[..|ops| - 1];
      NotesAreThoseAdded(init, sid);
      RoomMade(init, sid);
      if Made(init, sid) {
        NotesStep(After(EMPTY, init), ops[|init|], sid);
      }
    }
  }

  predicate Shows(r: Room, turn: Option<(int, real)>) {
    match turn
    case Some((page, zoom)) => r.page == page && r.zoom == zoom && r.synced
    case None => r.page == 0 && r.zoom == 1.0 && !r.synced
  }

  lemma TurnStep(s: Lobby, op: Op, sid: string)
    requires sid in s.sessions
    ensures sid in Apply(s, op).sessions
    ensures var r, t := s.sessions[sid], Apply(s, op).sessions[sid];
      if op.SyncPage? && op.sid == sid then t.page == op.page && t.zoom == op.zoom && t.synced
      else t.page == r.page && t.zoom == r.zoom && t.synced == r.synced
  {
    hide RemoveFirst;
  }

  /** Its page, zoom and sync flag are those of the last turn since it was made, or what it was made with. */
  lemma {:induction false} PageIsTheLastTurn(ops: seq<Op>, sid: string)
    ensures !Made(ops, sid) ==> LastTurn(ops, sid) == None
    ensures sid in After(EMPTY, ops).sessions ==> Shows(After(EMPTY, ops).sessions[sid], LastTurn(ops, sid))
  {
    hide RemoveFirst;
    if ops != [] {
      var init := ops[..|ops| - 1];
      PageIsTheLastTurn(init, sid);
      RoomMade(init, sid);
      if Made(init, sid) {
        TurnStep(After(EMPTY, init), ops[|init|], sid);
      }
    }
  }

  /** The user index is what the operations made of it: the room entered last, until its user leaves any room or a
      room the user is listed in closes. */
  lemma {:induction false} EntryIsItsPast(ops: seq<Op>, user: string)
    ensures var s := After(EMPTY, ops);
      Entered(ops, user) == if user in s.userTo then Some(s.userTo[user]) else None
  {
    if ops != [] {
      var init, op := ops[..|ops| - 1], ops[|ops| - 1];
      EntryIsItsPast(init, user);
      RoomIsItsPast(init, op.sid);
      EntryPastStep(After(EMPTY, init), init, op, user);
      assert init + [op] == ops;
    }
  }

  lemma EntryPastStep(s: Lobby, init: seq<Op>, op: Op, user: string)
    requires IsPast(s, init, op.sid)
    requires Entered(init, user) == if user in s.userTo then Some(s.userTo[user]) else None
    ensures var t := Apply(s, op);
      Entered(init + [op], user) == if user in t.userTo then Some(t.userTo[user]) else None
  {
    hide Made, Open, Members, Joined, Origin;
    assert (init + [op])[..|init|] == init;
  }

  // ---------- When the index is the converse of membership ----------

  predicate Listed(s: Lobby, sid: string, user: string) {
    sid in s.sessions && s.sessions[sid].state != Closed && user in s.sessions[sid].participants
  }

  /** Every member of an open room has an entry, and it points to that room. */
  ghost predicate Converse(s: Lobby) {
    forall sid, user :: Listed(s, sid, user) ==> user in s.userTo && s.userTo[user] == sid
  }

  /** The guard: whoever enters a room is in none, whoever leaves has no entry elsewhere, and a closing room's
      members have none elsewhere. */
  predicate Orderly(s: Lobby, op: Op) {
    match op
    case Create(sid, _, user) => sid in s.sessions || user !in s.userTo
    case Join(sid, user) =>
      sid !in s.sessions || s.sessions[sid].state == Closed || user in s.sessions[sid].participants || user !in s.userTo
    case Leave(sid, user) => sid !in s.sessions || user !in s.userTo || s.userTo[user] == sid
    case Close(sid) =>
      sid !in s.sessions ||
      forall user :: user in s.sessions[sid].participants && user in s.userTo ==> s.userTo[user] == sid
    case SyncPage(_, _, _) => true
    case AddNote(_, _) => true
  }

  lemma ListedStep(s: Lobby, op: Op, sid: string, user: string)
    requires Inv(s)
    ensures Listed(Apply(s, op), sid, user) <==>
      match op
      case Create(r, _, u) => Listed(s, sid, user) || (r !in s.sessions && sid == r && user == u)
      case Join(r, u) =>
        Listed(s, sid, user) || (r in s.sessions && s.sessions[r].state != Closed && sid == r && user == u)
      case Leave(r, u) => Listed(s, sid, user) && !(sid == r && user == u)
      case Close(r) => Listed(s, sid, user) && sid != r
      case SyncPage(_, _, _) => Listed(s, sid, user)
      case AddNote(_, _) => Listed(s, sid, user)
  {
    if op.Leave? && op.sid in s.sessions {
      RemoveFirstKeeps(s.sessions[op.sid].participants, op.user);
    }
  }

  lemma OrderlyKeeps(s: Lobby, op: Op)
    requires Inv(s) && Converse(s) && Orderly(s, op)
    ensures Converse(Apply(s, op))
  {
    forall sid, user | Listed(Apply(s, op), sid, user)
      ensures user in Apply(s, op).userTo && Apply(s, op).userTo[user] == sid {
      ListedStep(s, op, sid, user);
      assert Listed(s, sid, user) ==> user in s.userTo && s.userTo[user] == sid;
    }
  }

  lemma DisorderlyBreaks(s: Lobby, op: Op)
    requires Inv(s) && Converse(s) && !Orderly(s, op)
    ensures !Converse(Apply(s, op))
  {
    var user := if op.Close?
      then var u :| u in s.sessions[op.sid].participants && u in s.userTo && s.userTo[u] != op.sid; u
      else op.user;
    assert GoodEntry(s, user);
    ListedStep(s, op, s.userTo[user], user);
    assert Listed(Apply(s, op), s.userTo[user], user);
  }

  /** From a state where the index is the converse of membership, an operation keeps it so exactly if its guard
      holds. */
  lemma ConverseStep(s: Lobby, op: Op)
    requires Inv(s) && Converse(s)
    ensures Converse(Apply(s, op)) <==> Orderly(s, op)
  {
    if Orderly(s, op) {
      OrderlyKeeps(s, op);
    } else {
      DisorderlyBreaks(s, op);
    }
  }

  lemma NobodyIsListed()
    ensures Converse(EMPTY)
  {
  }

  predicate OrderlyRun(ops: seq<Op>) {
    ops == [] || (OrderlyRun(ops[..|ops| - 1]) && Orderly(After(EMPTY, ops[..|ops| - 1]), ops[|ops| - 1]))
  }

  ghost predicate ConverseAllAlong(ops: seq<Op>) {
    Converse(After(EMPTY, ops)) && (ops != [] ==> ConverseAllAlong(ops[..|ops| - 1]))
  }

  /** Over whole runs: the index is the converse of membership all along exactly if every operation was
      orderly. */
  lemma {:induction false} ConverseThroughout(ops: seq<Op>)
    ensures ConverseAllAlong(ops) <==> OrderlyRun(ops)
  {
    hide Apply, Orderly, Converse, Inv;
    NobodyIsListed();
    if ops != [] {
      var n := |ops| - 1;
      ConverseThroughout(ops[..n]);
      InvRun(ops[..n]);
      if ConverseAllAlong(ops[..n]) {
        ConverseStep(After(EMPTY, ops[..n]), ops[n]);
      }
    }
  }

  /** While it is, a user is in at most one open room, and the entry says which. */
  lemma ConverseMeansOneRoom(ops: seq<Op>, sid: string, user: string)
    requires Converse(After(EMPTY, ops))
    ensures var s := After(EMPTY, ops);
      Listed(s, sid, user) <==> user in s.userTo && s.userTo[user] == sid
  {
    InvRun(ops);
    assert GoodEntry(After(EMPTY, ops), user);
  }

  /** Leaving one of two rooms: the user is in the other and has no entry. */
  lemma LeavingOneRoomForgetsTheOther()
    ensures var s := Apply(Apply(Apply(Apply(EMPTY, Create("r", "b", "h")), Create("q", "b", "u")), Join("r", "u")),
                           Leave("q", "u"));
      Listed(s, "r", "u") && "u" !in s.userTo
  {
    var s1 := Apply(EMPTY, Create("r", "b", "h"));
    var s2 := Apply(s1, Create("q", "b", "u"));
    assert s2.sessions["r"].participants == ["h"];
    var s3 := Apply(s2, Join("r", "u"));
    assert s3.sessions["r"].participants == ["h"] + ["u"] && s3.sessions["r"].participants[1] == "u";
  }

  /** "Leaving" a room one was never in forgets the room one is in. */
  lemma StrangerLeavingForgetsHisRoom()
    ensures var s := Apply(Apply(Apply(EMPTY, Create("r", "b", "h")), Create("q", "b", "u")), Leave("r", "u"));
      Listed(s, "q", "u") && "u" !in s.userTo
  {
    var s2 := Apply(Apply(EMPTY, Create("r", "b", "h")), Create("q", "b", "u"));
    assert s2.sessions["q"] == Room("b", "u", ["u"], Created, 0, 1.0, false, []);
  }

  /** Closing a closed room again forgets the rooms its former members are in by now. */
  lemma ClosingAgainForgetsOtherRooms()
    ensures var s := Apply(Apply(Apply(Apply(EMPTY, Create("r", "b", "u")), Close("r")), Create("q", "b", "u")),
                           Close("r"));
      Listed(s, "q", "u") && "u" !in s.userTo
  {
    var s1 := Apply(EMPTY, Create("r", "b", "u"));
    assert s1.sessions["r"] == Room("b", "u", ["u"], Created, 0, 1.0, false, []);
    var s3 := Apply(Apply(s1, Close("r")), Create("q", "b", "u"));
    assert s3.sessions["r"].participants == ["u"] && "u" in s3.sessions["r"].participants;
    assert s3.sessions["q"] == Room("b", "u", ["u"], Created, 0, 1.0, false, []);
  }

  // ---------- The room list ----------

  /** The sessions' ids in the order of the map that holds them. */
  ghost predicate Enumerates(keys: seq<string>, ids: set<string>) {
    NoRepeats(keys) && forall sid :: sid in keys <==> sid in ids
  }

  function OpenRooms(s: Lobby, keys: seq<string>): seq<string> {
    if keys == [] then []
    else
      var sid := keys[|keys| - 1];
      OpenRooms(s, keys[..|keys| - 1]) + if sid in s.sessions && s.sessions[sid].state != Closed then [sid] else []
  }

  function StateNumber(state: RoomState): nat {
    match state
    case Created => 0
    case Active => 1
    case Paused => 2
    case Closed => 3
  }

  function Summary(sid: string, r: Room): Json {
    Object(map["sessionId" := String(sid), "bookId" := String(r.bookId), "hostUserId" := String(r.host),
               "participantCount" := Number(|r.participants|), "currentPage" := Number(r.page),
               "state" := Number(StateNumber(r.state))])
  }

  /** The entry of one room; a Closed room has none. */
  function Shown(s: Lobby, sid: string): seq<Json> {
    if sid in s.sessions && s.sessions[sid].state != Closed then [Summary(sid, s.sessions[sid])] else []
  }

  function RoomList(s: Lobby, keys: seq<string>): seq<Json> {
    if keys == [] then [] else RoomList(s, keys[..|keys| - 1]) + Shown(s, keys[|keys| - 1])
  }

  lemma RoomListStart(s: Lobby)
    ensures RoomList(s, []) == []
  {
  }

  lemma RoomListNext(s: Lobby, keys: seq<string>, i: nat)
    requires i < |keys|
    ensures RoomList(s, keys[..i + 1]) == RoomList(s, keys[..i]) + Shown(s, keys[i])
  {
    hide Shown;
    assert keys[..i + 1][..i] == keys[..i];
  }

  /** The list shows every room that is not Closed once, in order, as it is now. */
  lemma {:induction false} RoomListShowsOpenRooms(s: Lobby, keys: seq<string>)
    requires NoRepeats(keys)
    ensures var open := OpenRooms(s, keys);
      && NoRepeats(open)
      && (forall sid :: sid in open <==> sid in keys && sid in s.sessions && s.sessions[sid].state != Closed)
      && |RoomList(s, keys)| == |open|
      && (forall i :: 0 <= i < |open| ==>
            open[i] in s.sessions && RoomList(s, keys)[i] == Summary(open[i], s.sessions[open[i]]))
  {
    hide Summary;
    if keys != [] {
      var n := |keys| - 1;
      assert keys == keys[..n] + [keys[n]];
      RoomListShowsOpenRooms(s, keys[..n]);
      assert keys[n] !in keys[..n];
    }
  }

  /** Over every run the list shows exactly the rooms that are open, each once, with the id, book and host it was made
      with, the number of its members, the page last turned to, and whether anybody has joined. */
  lemma RoomListShowsThePast(ops: seq<Op>, keys: seq<string>)
    requires Enumerates(keys, After(EMPTY, ops).sessions.Keys)
    ensures var list, open := RoomList(After(EMPTY, ops), keys), OpenRooms(After(EMPTY, ops), keys);
      && NoRepeats(open) && (forall sid :: sid in open <==> Open(ops, sid))
      && |list| == |open|
      && forall i :: 0 <= i < |open| ==>
           list[i] == Object(map["sessionId" := String(open[i]),
                                 "bookId" := String(Origin(ops, open[i]).0),
                                 "hostUserId" := String(Origin(ops, open[i]).1),
                                 "participantCount" := Number(|Members(ops, open[i])|),
                                 "currentPage" := Number(PageOf(ops, open[i])),
                                 "state" := Number(if Joined(ops, open[i]) then 1 else 0)])
  {
    hide RoomList, OpenRooms, Members, Open, Made, Joined, Origin, LastTurn;
    var s := After(EMPTY, ops);
    RoomListShowsOpenRooms(s, keys);
    forall sid ensures sid in s.sessions && s.sessions[sid].state != Closed <==> Open(ops, sid) {
      RoomIsItsPast(ops, sid);
    }
    forall i | 0 <= i < |OpenRooms(s, keys)| ensures RoomList(s, keys)[i] == Object(
      map["sessionId" := String(OpenRooms(s, keys)[i]),
          "bookId" := String(Origin(ops, OpenRooms(s, keys)[i]).0),
          "hostUserId" := String(Origin(ops, OpenRooms(s, keys)[i]).1),
          "participantCount" := Number(|Members(ops, OpenRooms(s, keys)[i])|),
          "currentPage" := Number(PageOf(ops, OpenRooms(s, keys)[i])),
          "state" := Number(if Joined(ops, OpenRooms(s, keys)[i]) then 1 else 0)]) {
      var sid := OpenRooms(s, keys)[i];
      assert sid in OpenRooms(s, keys);
      RoomIsItsPast(ops, sid);
      PageIsTheLastTurn(ops, sid);
    }
  }

  function PageOf(ops: seq<Op>, sid: string): int {
    match LastTurn(ops, sid)
    case Some((page, _)) => page
    case None => 0
  }

  // ---------- How long an announced room list stays current ----------

  lemma {:induction false} RoomListAppend(s: Lobby, a: seq<string>, b: seq<string>)
    ensures RoomList(s, a + b) == RoomList(s, a) + RoomList(s, b)
  {
    hide Shown;
    if b == [] {
      assert a + b == a;
    } else {
      var n := |b| - 1;
      assert (a + b)[..|a + b| - 1] == a + b[..n];
      RoomListAppend(s, a, b[..n]);
    }
  }

  lemma {:induction false} RoomListSame(s: Lobby, t: Lobby, keys: seq<string>)
    requires forall sid :: sid in keys ==> Shown(s, sid) == Shown(t, sid)
    ensures RoomList(s, keys) == RoomList(t, keys)
  {
    hide Shown;
    if keys != [] {
      var n := |keys| - 1;
      assert keys[n] in keys;
      RoomListSame(s, t, keys[..n]);
    }
  }

  lemma SameMiddle<T>(before: seq<T>, a: seq<T>, b: seq<T>, after: seq<T>)
    ensures before + a + after == before + b + after <==> a == b
  {
    if before + a + after == before + b + after {
      assert a == (before + a + after)[|before|..|before| + |a|];
      assert b == (before + b + after)[|before|..|before| + |b|];
    }
  }

  /** When at most one room changed, the list is the same exactly if that room's entry is. */
  lemma OneRoomDecides(s: Lobby, t: Lobby, keys: seq<string>, sid: string)
    requires NoRepeats(keys) && sid in keys
    requires forall other :: other in keys && other != sid ==> Shown(s, other) == Shown(t, other)
    ensures RoomList(s, keys) == RoomList(t, keys) <==> Shown(s, sid) == Shown(t, sid)
  {
    hide Shown;
    var k :| 0 <= k < |keys| && keys[k] == sid;
    var before, after := keys[..k], keys[k + 1..];
    assert keys == before + [sid] + after;
    RoomListSame(s, t, before);
    RoomListSame(s, t, after);
    ListAround(s, before, sid, after);
    ListAround(t, before, sid, after);
    SameMiddle(RoomList(s, before), Shown(s, sid), Shown(t, sid), RoomList(s, after));
  }

  lemma ListAround(s: Lobby, before: seq<string>, sid: string, after: seq<string>)
    ensures RoomList(s, before + [sid] + after) == RoomList(s, before) + Shown(s, sid) + RoomList(s, after)
  {
    hide Shown;
    RoomListAppend(s, before + [sid], after);
    assert (before + [sid])[..|before|] == before;
  }

  /** The guard: an operation that nobody could tell from the room list. */
  predicate Unseen(s: Lobby, op: Op) {
    match op
    case Create(sid, _, _) => sid in s.sessions
    case Join(sid, user) =>
      sid !in s.sessions || s.sessions[sid].state == Closed || user in s.sessions[sid].participants
    case Leave(sid, user) =>
      sid !in s.sessions || s.sessions[sid].state == Closed || user !in s.sessions[sid].participants
    case Close(sid) => sid !in s.sessions || s.sessions[sid].state == Closed
    case SyncPage(sid, page, _) =>
      sid !in s.sessions || s.sessions[sid].state == Closed || s.sessions[sid].page == page
    case AddNote(_, _) => true
  }

  predicate NewRoom(s: Lobby, op: Op) {
    op.Create? && op.sid !in s.sessions
  }

  lemma SummaryShows(sid: string, r: Room, t: Room)
    requires r.bookId == t.bookId && r.host == t.host
    ensures Summary(sid, r) == Summary(sid, t) ==>
              |r.participants| == |t.participants| && r.page == t.page && r.state == t.state
    ensures |r.participants| == |t.participants| && r.page == t.page && r.state == t.state ==>
              Summary(sid, r) == Summary(sid, t)
  {
    if Summary(sid, r) == Summary(sid, t) {
      var m, n := Summary(sid, r).fields, Summary(sid, t).fields;
      assert "participantCount"[0] == 'p' && "currentPage"[0] == 'c' && "state"[1] == 't';
      assert "sessionId"[1] == 'e' && "bookId"[0] == 'b' && "hostUserId"[0] == 'h';
      assert m["participantCount"] == n["participantCount"];
      assert m["currentPage"] == n["currentPage"];
      assert m["state"] == n["state"];
    }
  }

  lemma {:induction false} RemoveFirstAt(s: seq<string>, i: nat, x: string)
    requires i <= |s| && (forall j :: 0 <= j < i ==> s[j] != x) && (i < |s| ==> s[i] == x)
    ensures RemoveFirst(s, x) == if i < |s| then s[..i] + s[i + 1..] else s
  {
    if i > 0 {
      RemoveFirstAt(s[1..], i - 1, x);
      assert s == [s[0]] + s[1..];
    }
  }

  lemma {:induction false} RemoveFirstLength(s: seq<string>, x: string)
    ensures |RemoveFirst(s, x)| == |s| - if x in s then 1 else 0
  {
    if s != [] && s[0] != x {
      RemoveFirstLength(s[1..], x);
      assert s == [s[0]] + s[1..];
    }
  }

  lemma EntryUnseen(s: Lobby, op: Op, sid: string)
    requires Inv(s) && sid in s.sessions && !NewRoom(s, op) && sid == op.sid
    ensures Shown(Apply(s, op), sid) == Shown(s, sid) <==> Unseen(s, op)
  {
    hide Summary, Inv;
    var r, t := s.sessions[sid], Apply(s, op).sessions[sid];
    assert GoodRoom(r) by { GoodRoomOf(s, sid); }
    SummaryShows(sid, r, t);
    if op.Leave? {
      RemoveFirstKeeps(r.participants, op.user);
      RemoveFirstLength(r.participants, op.user);
    }
  }

  lemma GoodRoomOf(s: Lobby, sid: string)
    requires Inv(s) && sid in s.sessions
    ensures GoodRoom(s.sessions[sid])
  {
  }

  lemma OthersUnseen(s: Lobby, op: Op, sid: string)
    requires sid != op.sid
    ensures Shown(Apply(s, op), sid) == Shown(s, sid)
  {
    hide Summary;
  }

  /** An operation that makes no new room leaves the list last announced current exactly if its guard holds: no
      membership, page or closing that the list shows has changed. */
  lemma RoomListStaysCurrent(s: Lobby, op: Op, keys: seq<string>)
    requires Inv(s) && Enumerates(keys, s.sessions.Keys) && !NewRoom(s, op)
    ensures RoomList(Apply(s, op), keys) == RoomList(s, keys) <==> Unseen(s, op)
    ensures Apply(s, op).sessions.Keys == s.sessions.Keys
  {
    hide Shown, Inv, RoomList;
    forall sid | sid in keys && sid != op.sid ensures Shown(Apply(s, op), sid) == Shown(s, sid) {
      OthersUnseen(s, op, sid);
    }
    if op.sid in s.sessions {
      EntryUnseen(s, op, op.sid);
      OneRoomDecides(s, Apply(s, op), keys, op.sid);
    } else {
      RoomListSame(s, Apply(s, op), keys);
    }
  }

  ghost predicate NoNewRooms(s: Lobby, ops: seq<Op>) {
    ops != [] ==> NoNewRooms(s, ops[..|ops| - 1]) && !NewRoom(After(s, ops[..|ops| - 1]), ops[|ops| - 1])
  }

  predicate UnseenRun(s: Lobby, ops: seq<Op>) {
    ops != [] ==> UnseenRun(s, ops[..|ops| - 1]) && Unseen(After(s, ops[..|ops| - 1]), ops[|ops| - 1])
  }

  ghost predicate CurrentAllAlong(s: Lobby, ops: seq<Op>, keys: seq<string>) {
    ops != [] ==> CurrentAllAlong(s, ops[..|ops| - 1], keys) && RoomList(After(s, ops), keys) == RoomList(s, keys)
  }

  /** Over whole runs: until the next room is made, the list announced with the last one stays current all along
      exactly if every operation was unseen. */
  lemma {:induction false} RoomListCurrentThroughout(s: Lobby, ops: seq<Op>, keys: seq<string>)
    requires Inv(s) && Enumerates(keys, s.sessions.Keys) && NoNewRooms(s, ops)
    ensures CurrentAllAlong(s, ops, keys) <==> UnseenRun(s, ops)
    ensures Inv(After(s, ops)) && After(s, ops).sessions.Keys == s.sessions.Keys
  {
    hide RoomList, Inv, Unseen, NewRoom, Apply;
    if ops != [] {
      var n := |ops| - 1;
      var before := After(s, ops[..n]);
      RoomListCurrentThroughout(s, ops[..n], keys);
      InvStep(before, ops[n]);
      RoomListStaysCurrent(before, ops[n], keys);
      if CurrentAllAlong(s, ops[..n], keys) {
        assert RoomList(before, keys) == RoomList(s, keys) by {
          assert n == 0 ==> before == s;
        }
      }
    }
  }

  /** A room is made and closed: every client still shows it. */
  lemma ClosedRoomStaysListed()
    ensures var made := Apply(EMPTY, Create("r", "b", "h")); var closed := Apply(made, Close("r"));
      RoomList(made, ["r"]) == [Summary("r", made.sessions["r"])] && RoomList(closed, ["r"]) == []
  {
    hide Summary;
    var made := Apply(EMPTY, Create("r", "b", "h"));
    assert made.sessions["r"] == Room("b", "h", ["h"], Created, 0, 1.0, false, []);
    assert Apply(made, Close("r")).sessions["r"].state == Closed;
    assert ["r"][..0] == [];
  }

  // ---------- Broadcast ----------

  /** The connections a broadcast writes to, in order. */
  function Targets(x: C.Index, users: seq<string>): seq<string> {
    if users == [] then []
    else
      Targets(x, users[..|users| - 1])
      + match C.Lookup(x, users[|users| - 1])
        case Some(c) => if x.conns[c].connected then [c] else []
        case None => []
  }

  function Count(s: seq<string>, x: string): nat {
    if s == [] then 0 else Count(s[..|s| - 1], x) + if s[|s| - 1] == x then 1 else 0
  }

  lemma CountSnoc(s: seq<string>, y: string, x: string)
    ensures Count(s + [y], x) == Count(s, x) + if y == x then 1 else 0
  {
    assert (s + [y])[..|s + [y]| - 1] == s;
  }

  /** Whether a user's lookup hits a connection that is up. */
  function Hit(x: C.Index, user: string, c: string): nat {
    if C.Lookup(x, user) == Some(c) && x.conns[c].connected then 1 else 0
  }

  lemma TargetsCount(x: C.Index, users: seq<string>, user: string, c: string)
    ensures Count(Targets(x, users + [user]), c) == Count(Targets(x, users), c) + Hit(x, user, c)
  {
    assert (users + [user])[..|users + [user]| - 1] == users;
    var t := Targets(x, users);
    match C.Lookup(x, user) {
      case Some(d) => CountSnoc(t, d, c); assert t + [] == t;
      case None => assert t + [] == t;
    }
  }

  /** A connection is due the message if it is up and is the one found for some participant. */
  ghost predicate Due(x: C.Index, users: seq<string>, c: string) {
    c in x.conns && x.conns[c].connected && x.conns[c].userId in users && C.Lookup(x, x.conns[c].userId) == Some(c)
  }

  lemma {:induction false} TargetsOnce(x: C.Index, users: seq<string>, c: string)
    requires C.Sound(x) && NoRepeats(users)
    ensures Count(Targets(x, users), c) == if Due(x, users, c) then 1 else 0
  {
    if users != [] {
      var init, u := users[..|users| - 1], users[|users| - 1];
      TargetsOnce(x, init, c);
      TargetsCount(x, init, u, c);
      assert users == init + [u];
      assert forall v :: v in users <==> v in init || v == u;
      assert u !in init;
    }
  }

  function Copies(m: Message, n: nat): seq<Message> {
    if n == 0 then [] else Copies(m, n - 1) + [m]
  }

  function DeliverAll(x: C.Index, boxes: map<string, seq<Message>>, users: seq<string>, m: Message)
    : map<string, seq<Message>>
  {
    if users == [] then boxes
    else C.Deliver(x, DeliverAll(x, boxes, users[..|users| - 1], m), users[|users| - 1], m)
  }

  /** A broadcast appends to each outbox one copy for each time its connection is a target. */
  lemma {:induction false} DeliverAllCopies(x: C.Index, boxes: map<string, seq<Message>>, users: seq<string>,
      m: Message, c: string)
    requires c in boxes
    ensures c in DeliverAll(x, boxes, users, m)
    ensures DeliverAll(x, boxes, users, m)[c] == boxes[c] + Copies(m, Count(Targets(x, users), c))
  {
    if users != [] {
      var init, u := users[..|users| - 1], users[|users| - 1];
      DeliverAllCopies(x, boxes, init, m, c);
      TargetsCount(x, init, u, c);
      assert users == init + [u];
      var before, n := DeliverAll(x, boxes, init, m), Count(Targets(x, init), c);
      DeliverOne(x, before, u, m, c);
      CopiesMore(boxes[c], m, n, Hit(x, u, c) == 1, before[c], DeliverAll(x, boxes, users, m)[c]);
    }
  }

  lemma DeliverOne(x: C.Index, boxes: map<string, seq<Message>>, user: string, m: Message, c: string)
    requires c in boxes
    ensures c in C.Deliver(x, boxes, user, m)
    ensures C.Deliver(x, boxes, user, m)[c] == boxes[c] + if Hit(x, user, c) == 1 then [m] else []
  {
  }

  lemma CopiesMore(was: seq<Message>, m: Message, n: nat, hit: bool, before: seq<Message>, now: seq<Message>)
    requires before == was + Copies(m, n)
    requires now == before + if hit then [m] else []
    ensures now == was + Copies(m, n + if hit then 1 else 0)
  {
  }

  /** In every reachable state of the rooms and of the connections, a broadcast to a room writes the message
      exactly once to the connection found for each participant that has one up, and to nobody else. */
  lemma BroadcastReachesEachOnce(roomOps: seq<Op>, connOps: seq<C.Op>, sid: string, c: string,
                                 boxes: map<string, seq<Message>>, m: Message)
    requires sid in After(EMPTY, roomOps).sessions && c in boxes
    ensures var x := C.IndexAfter(connOps); var users := After(EMPTY, roomOps).sessions[sid].participants;
      && c in DeliverAll(x, boxes, users, m)
      && DeliverAll(x, boxes, users, m)[c] == boxes[c] + if Due(x, users, c) then [m] else []
  {
    var x, users := C.IndexAfter(connOps), After(EMPTY, roomOps).sessions[sid].participants;
    InvRun(roomOps);
    C.SoundRun(connOps);
    TargetsOnce(x, users, c);
    DeliverAllCopies(x, boxes, users, m, c);
    assert Copies(m, 1) == Copies(m, 0) + [m] == [m];
  }
}
