/** The room manager: sessions, its index and the messages it sends to their members. */
module RoomManagement {
  import opened Protocol
  import opened Messages
  import C = Connections
  import opened Rooms

  class StudySession {
    const id: string
    const bookId: string
    const hostUserId: string
    var participantUserIds: seq<string>
    var state: RoomState
    var currentPage: int
    var zoomLevel: real
    var synced: bool
    var notes: seq<Note>

    ghost function View(): Room
      reads this
    {
      Room(bookId, hostUserId, participantUserIds, state, currentPage, zoomLevel, synced, notes)
    }

    constructor (id: string, bookId: string, hostUserId: string)
      ensures this.id == id
      ensures View() == Room(bookId, hostUserId, [hostUserId], Created, 0, 1.0, false, [])
    {
      this.id, this.bookId, this.hostUserId := id, bookId, hostUserId;
      participantUserIds, state, currentPage, zoomLevel, synced, notes := [hostUserId], Created, 0, 1.0, false, [];
    }

    method AddParticipant(userId: string)
      modifies this`participantUserIds
      ensures participantUserIds == if userId in old(participantUserIds) then old(participantUserIds)
                                    else old(participantUserIds) + [userId]
    {
      if userId !in participantUserIds {
        participantUserIds := participantUserIds + [userId];
      }
    }

    method RemoveParticipant(userId: string)
      modifies this`participantUserIds
      ensures participantUserIds == RemoveFirst(old(participantUserIds), userId)
    {
      hide RemoveFirst;
      var i := 0;
      while i < |participantUserIds| && participantUserIds[i] != userId
        invariant 0 <= i <= |participantUserIds|
        invariant forall j :: 0 <= j < i ==> participantUserIds[j] != userId
      {
        i := i + 1;
      }
      RemoveFirstAt(participantUserIds, i, userId);
      if i < |participantUserIds| {
        participantUserIds := participantUserIds[..i] + participantUserIds[i + 1..];
      }
    }
  }

  class StudySessionManager {
    var sessions: map<string, StudySession>
    var userToSessionMap: map<string, string>
    const connectionManager: C.ConnectionManager

    ghost predicate Valid()
      reads this, connectionManager
    {
      (forall sid :: sid in sessions ==> sessions[sid].id == sid) && connectionManager.Valid()
    }

    ghost function View(): Lobby
      reads this, sessions.Values
    {
      Lobby(map sid | sid in sessions :: sessions[sid].View(), userToSessionMap)
    }

    constructor (connectionManager: C.ConnectionManager)
      requires connectionManager.Valid()
      ensures Valid() && View() == EMPTY && this.connectionManager == connectionManager
    {
      sessions, userToSessionMap := map[], map[];
      this.connectionManager := connectionManager;
    }

    method CreateSession(sid: string, bookId: string, hostUserId: string, keys: seq<string>, uuid: string)
      returns (session: StudySession)
      requires Valid() && sid !in sessions && Enumerates(keys, sessions.Keys + {sid})
      modifies this`sessions, this`userToSessionMap, connectionManager.connections.Values`written
      ensures Valid() && fresh(session) && sessions == old(sessions)[sid := session]
      ensures View() == Apply(old(View()), Create(sid, bookId, hostUserId))
      ensures connectionManager.Outboxes()
           == C.ToAll(connectionManager.View(), old(connectionManager.Outboxes()),
                      Message(EVT_SESSION_LIST_UPDATED, SUCCESS, map["sessions" := Array(RoomList(View(), keys))],
                              uuid, ""))
    {
      session := Add(sid, bookId, hostUserId);
      assert connectionManager.Outboxes() == old(connectionManager.Outboxes());
      assert connectionManager.View() == old(connectionManager.View());
      Announce(keys, uuid);
    }

    method Add(sid: string, bookId: string, hostUserId: string) returns (session: StudySession)
      requires Valid() && sid !in sessions
      modifies this`sessions, this`userToSessionMap
      ensures Valid() && fresh(session) && sessions == old(sessions)[sid := session]
      ensures View() == Apply(old(View()), Create(sid, bookId, hostUserId))
    {
      session := new StudySession(sid, bookId, hostUserId);
      sessions := sessions[sid := session];
      userToSessionMap := userToSessionMap[hostUserId := sid];
    }

    /** The room list goes to every connection. */
    method Announce(keys: seq<string>, uuid: string)
      requires Valid() && Enumerates(keys, sessions.Keys)
      modifies connectionManager.connections.Values`written
      ensures Valid() && View() == old(View()) && connectionManager.View() == old(connectionManager.View())
      ensures connectionManager.Outboxes()
           == C.ToAll(connectionManager.View(), old(connectionManager.Outboxes()),
                      Message(EVT_SESSION_LIST_UPDATED, SUCCESS, map["sessions" := Array(RoomList(View(), keys))],
                              uuid, ""))
    {
      hide RoomList, C.ToAll;
      var list := ActiveSessionsSummary(keys);
      var event := Message(EVT_SESSION_LIST_UPDATED, SUCCESS, map["sessions" := Array(list)], uuid, "");
      connectionManager.BroadcastMessage(event);
    }

    method ActiveSessionsSummary(keys: seq<string>) returns (list: seq<Json>)
      requires Valid() && Enumerates(keys, sessions.Keys)
      ensures list == RoomList(View(), keys)
    {
      hide Summary, RoomList;
      list := [];
      RoomListStart(View());
      for i := 0 to |keys|
        invariant list == RoomList(View(), keys[..i])
      {
        assert keys[i] in keys;
        var s := sessions[keys[i]];
        RoomListNext(View(), keys, i);
        if s.state != Closed {
          var entry := Describe(s);
          list := list + [entry];
        } else {
          assert list + [] == list;
        }
      }
      assert keys[..|keys|] == keys;
    }

    method Describe(s: StudySession) returns (entry: Json)
      ensures entry == Summary(s.id, s.View())
    {
      entry := Object(map["sessionId" := String(s.id), "bookId" := String(s.bookId),
                          "hostUserId" := String(s.hostUserId),
                          "participantCount" := Number(|s.participantUserIds|),
                          "currentPage" := Number(s.currentPage),
                          "state" := Number(StateNumber(s.state))]);
    }

    /** The loop over the participants. */
    method BroadcastToSession(session: StudySession, event: Message)
      requires Valid()
      modifies connectionManager.connections.Values`written
      ensures Valid() && View() == old(View()) && connectionManager.View() == old(connectionManager.View())
      ensures connectionManager.Outboxes()
           == DeliverAll(connectionManager.View(), old(connectionManager.Outboxes()), session.participantUserIds, event)
    {
      var users := session.participantUserIds;
      for i := 0 to |users|
        invariant Valid() && connectionManager.View() == old(connectionManager.View())
        invariant connectionManager.Outboxes()
               == DeliverAll(connectionManager.View(), old(connectionManager.Outboxes()), users[..i], event)
      {
        assert users[..i + 1][..i] == users[..i];
        connectionManager.SendToUser(users[i], event);
      }
      assert users[..|users|] == users;
    }

    /** The mutation of a join; the event follows it. */
    method Enter(sid: string, userId: string)
      requires Valid() && sid in sessions && sessions[sid].state != Closed
      modifies this`userToSessionMap, sessions[sid]
      ensures View() == Apply(old(View()), Join(sid, userId))
    {
      var session := sessions[sid];
      ghost var before := View();
      if userId !in session.participantUserIds {
        session.AddParticipant(userId);
        userToSessionMap := userToSessionMap[userId := sid];
        session.state := Active;
        Updated(before, sid, JoinRoom(before.sessions[sid], userId));
      }
    }

    lemma Updated(before: Lobby, sid: string, room: Room)
      requires Valid() && sid in sessions && before.sessions.Keys == sessions.Keys && sessions[sid].View() == room
      requires forall k :: k in sessions && k != sid ==> sessions[k].View() == before.sessions[k]
      ensures View().sessions == before.sessions[sid := room]
    {
    }

    method JoinSession(sid: string, userId: string, event: Message) returns (ok: bool)
      requires Valid()
      modifies this`userToSessionMap, sessions.Values, connectionManager.connections.Values`written
      ensures Valid() && View() == Apply(old(View()), Join(sid, userId))
      ensures ok <==> sid in sessions && old(View()).sessions[sid].state != Closed
      ensures connectionManager.Outboxes()
           == DeliverAll(connectionManager.View(), old(connectionManager.Outboxes()),
                         if ok then View().sessions[sid].participants else [], event)
    {
      if sid !in sessions || sessions[sid].state == Closed { return false; }
      Enter(sid, userId);
      assert connectionManager.Outboxes() == old(connectionManager.Outboxes());
      assert connectionManager.View() == old(connectionManager.View());
      BroadcastToSession(sessions[sid], event);
      ok := true;
    }

    method Exit(sid: string, userId: string)
      requires Valid() && sid in sessions
      modifies this`userToSessionMap, sessions[sid]
      ensures View() == Apply(old(View()), Leave(sid, userId))
    {
      var session := sessions[sid];
      ghost var before := View();
      session.RemoveParticipant(userId);
      userToSessionMap := userToSessionMap - {userId};
      if session.participantUserIds == [] {
        session.state := Closed;
      }
      Updated(before, sid, LeaveRoom(before.sessions[sid], userId));
    }

    method LeaveSession(sid: string, userId: string, event: Message) returns (ok: bool)
      requires Valid()
      modifies this`userToSessionMap, sessions.Values, connectionManager.connections.Values`written
      ensures Valid() && View() == Apply(old(View()), Leave(sid, userId))
      ensures ok <==> sid in sessions
      ensures connectionManager.Outboxes()
           == DeliverAll(connectionManager.View(), old(connectionManager.Outboxes()),
                         if ok && View().sessions[sid].state != Closed then View().sessions[sid].participants else [],
                         event)
    {
      if sid !in sessions { return false; }
      Exit(sid, userId);
      assert connectionManager.Outboxes() == old(connectionManager.Outboxes());
      assert connectionManager.View() == old(connectionManager.View());
      if sessions[sid].state != Closed {
        BroadcastToSession(sessions[sid], event);
      }
      ok := true;
    }

    method Shut(sid: string)
      requires Valid() && sid in sessions
      modifies this`userToSessionMap, sessions[sid]
      ensures View() == Apply(old(View()), Close(sid))
    {
      var session := sessions[sid];
      ghost var before := View();
      session.state := Closed;
      var users := session.participantUserIds;
      for i := 0 to |users|
        invariant userToSessionMap == before.userTo - (set u | u in users[..i])
        invariant session.View() == before.sessions[sid].(state := Closed)
      {
        assert users[..i + 1] == users[..i] + [users[i]];
        userToSessionMap := userToSessionMap - {users[i]};
      }
      assert users[..|users|] == users;
      Updated(before, sid, before.sessions[sid].(state := Closed));
    }

    /** A closing room still tells everybody who was in it, and nobody else: the room list is not sent again. */
    method CloseSession(sid: string, uuid: string) returns (ok: bool)
      requires Valid()
      modifies this`userToSessionMap, sessions.Values, connectionManager.connections.Values`written
      ensures Valid() && View() == Apply(old(View()), Close(sid))
      ensures ok <==> sid in sessions
      ensures connectionManager.Outboxes()
           == DeliverAll(connectionManager.View(), old(connectionManager.Outboxes()),
                         if ok then View().sessions[sid].participants else [],
                         Message(SYNC_STUDY_PAGE, SUCCESS,
                                 map["event" := String("sessionClosed"), "sessionId" := String(sid)], uuid, ""))
    {
      if sid !in sessions { return false; }
      Shut(sid);
      assert connectionManager.Outboxes() == old(connectionManager.Outboxes());
      assert connectionManager.View() == old(connectionManager.View());
      var payload := map["event" := String("sessionClosed"), "sessionId" := String(sid)];
      BroadcastToSession(sessions[sid], Message(SYNC_STUDY_PAGE, SUCCESS, payload, uuid, ""));
      ok := true;
    }

    method SetPage(sid: string, page: int, zoom: real)
      requires Valid() && sid in sessions
      modifies sessions[sid]
      ensures View() == Apply(old(View()), SyncPage(sid, page, zoom))
      ensures sessions[sid].currentPage == page && sessions[sid].zoomLevel == zoom && sessions[sid].synced
    {
      ghost var before := View();
      var session := sessions[sid];
      session.currentPage, session.zoomLevel, session.synced := page, zoom, true;
      Updated(before, sid, before.sessions[sid].(page := page, zoom := zoom, synced := true));
    }

    method SyncPageOf(sid: string, page: int, zoom: real, event: Message)
      requires Valid()
      modifies sessions.Values, connectionManager.connections.Values`written
      ensures Valid() && View() == Apply(old(View()), SyncPage(sid, page, zoom))
      ensures sid in sessions ==>
                sessions[sid].currentPage == page && sessions[sid].zoomLevel == zoom && sessions[sid].synced
      ensures connectionManager.Outboxes()
           == DeliverAll(connectionManager.View(), old(connectionManager.Outboxes()),
                         if sid in sessions then View().sessions[sid].participants else [], event)
    {
      if sid !in sessions { return; }
      SetPage(sid, page, zoom);
      assert connectionManager.Outboxes() == old(connectionManager.Outboxes());
      assert connectionManager.View() == old(connectionManager.View());
      BroadcastToSession(sessions[sid], event);
    }

    method AppendNote(sid: string, note: Note)
      requires Valid() && sid in sessions
      modifies sessions[sid]
      ensures View() == Apply(old(View()), AddNote(sid, note))
      ensures sessions[sid].notes == old(sessions[sid].notes) + [note]
    {
      ghost var before := View();
      sessions[sid].notes := sessions[sid].notes + [note];
      Updated(before, sid, before.sessions[sid].(notes := before.sessions[sid].notes + [note]));
    }

    method AddNoteTo(sid: string, note: Note, event: Message)
      requires Valid()
      modifies sessions.Values, connectionManager.connections.Values`written
      ensures Valid() && View() == Apply(old(View()), AddNote(sid, note))
      ensures sid in sessions ==> sessions[sid].notes == old(sessions[sid].notes) + [note]
      ensures connectionManager.Outboxes()
           == DeliverAll(connectionManager.View(), old(connectionManager.Outboxes()),
                         if sid in sessions then View().sessions[sid].participants else [], event)
    {
      if sid !in sessions { return; }
      AppendNote(sid, note);
      assert connectionManager.Outboxes() == old(connectionManager.Outboxes());
      assert connectionManager.View() == old(connectionManager.View());
      BroadcastToSession(sessions[sid], event);
    }
  }
}
