# BookCLUB: a verified model of its protocol, rooms and books

BookCLUB is a Qt client and server that talk over one TCP stream of length-prefixed JSON messages. This project
models the parts of it whose correctness is not visible in any one function, and proves what they promise over
every input and every run:

* **The wire.** An incremental frame parser, fed in arbitrary pieces and drained at arbitrary moments, emits exactly
  what one reading of the whole stream gives. On top of it, one client and one server exchange requests, replies and
  pushed events while timers fire, contexts die and blocking calls end; every reply reaches the handler of its own
  request and nobody else. The message-level protocol is proved first (`Correlation.dfy`), then the byte-level system
  is proved to refine it (`Refinement.dfy`).
  A reply has the content its handler decided, and whoever subscribed to an event hears every one, once and in order.
* **Study rooms and the connection index.** Invariants over every run of each, the exact condition under which each
  index inverts what it indexes, and together: a broadcast reaches each participant with a live registered connection
  exactly once, and nobody else.
* **Derived data.** Rating aggregates, cart totals, orders and sales, the sliding request window and shelf order agree
  with the rows they are derived from over whole runs, or agree exactly when a stated condition holds.
* **What is stored is what was asked for.** Rooms with their members, notes and page, connections, opinions, cart lines,
  price tags and orders are what folds over the history of operations say they are, over every run.
* **Two small cores.** ISBN check digits (what the check digit is, which typing errors are caught) and salted passwords
  (the users table is a map from user name, whatever the case of its letters, to current password).

Operations are pure functions on values, over which the run theorems are proved; the classes with the source's own
fields (`PacketParser`, `NetworkService`, `RequestRouter`, `StudySessionManager`, `Cart`, `ReviewRepository`, ...) have
methods whose postconditions tie the new state to those functions.

| file | modules | source |
|---|---|---|
| `Search.dfy` | Search | the searches that appear as loops or single-row queries |
| `Protocol.dfy`, `Message.dfy` | Protocol, Messages | common/Network/Protocol.h, common/Network/Message.cpp |
| `JsonCodec.dfy` | JsonCodec | a codec that meets the law asked of the JSON library |
| `Framing.dfy`, `PacketParser.dfy` | Framing, PacketParsing | common/Network/PacketParser.cpp |
| `Client.dfy` | ClientService | src/client/network/ClientNetworkManager.cpp, client/src/services/NetworkService.cpp |
| `Router.dfy`, `RequestStats.dfy` | Serving, RequestStatistics | src/server/RequestRouter.cpp, src/server/RequestHandlerBase.cpp, src/server/RequestStats.cpp |
| `Correlation.dfy`, `Refinement.dfy` | Correlation, WireRefinement | the whole path of a request |
| `Connections.dfy` | Connections | src/server/ConnectionManager.cpp, src/server/ClientConnection.cpp |
| `Rooms.dfy`, `RoomManagement.dfy` | Rooms, RoomManagement | src/server/StudySessionManager.cpp, common/Models/StudySession.cpp |
| `Ratings.dfy` | Ratings | common/Interfaces/IReviewRepository.cpp, common/Interfaces/IRatingRepository.cpp |
| `Pricing.dfy`, `Cart.dfy` | Pricing, Carts | common/Models/Cart.cpp, common/Models/CartItem.cpp, common/Models/Book.cpp |
| `Checkout.dfy`, `ShopRepositories.dfy` | Shop, ShopRepositories | common/Interfaces/ICartRepository.cpp, common/Interfaces/IBookService.cpp, common/Interfaces/IOrderRepository.cpp, src/server/handlers/CartRequestHandler.cpp |
| `Shelves.dfy` | Shelves | client/src/services/LibraryService.cpp, common/Interfaces/IShelfRepository.cpp |
| `Passwords.dfy`, `Auth.dfy` | Passwords, Accounts | common/Interfaces/IAuthService.cpp, common/Utils/PasswordHasher.cpp, common/Utils/CryptoUtils.cpp |
| `Isbn.dfy` | Isbn | common/Utils/ValidationUtils.cpp |

## How the system is modelled

* Both sides run one event loop, so each slot is one atomic step. A blocking call's nested event loop lets any other
  steps happen before it returns; it may return with its reply as soon as that arrived, or with a timeout as long as it
  did not.
* UUIDs, the clock, the salt's random draws and SHA-256 are parameters. UUIDs drawn for requests and pushes are new;
  SHA-256 is assumed injective where a lemma says `Lawful`. The JSON text codec is a parameter too: decoding what was
  encoded gives the object back, and decoding may fail on other bytes. Numbers are whole numbers and binary fractions,
  as finite doubles are. That the assumptions can be met is proved: `JsonCodec.LawfulCodecExists`,
  `Passwords.IdealDigestExists`, `Shelves.BinaryIsLawful`, `Isbn.AsciiIsLawful`.
* The two casts to `quint32` are written out. They make the length header wrong from 2^32 bytes upwards and can only
  delay a frame below that; safety lemmas need no bound, completeness lemmas name theirs.
* SQL tables are maps or sequences of rows with the constraints of `database/schema.sql` (keys, uniqueness, checks,
  foreign keys). A `SELECT` without a total order may list its rows in any order: the listing is a parameter, and the
  results hold for every listing. An `ON CONFLICT(bookId, userId)` update is taken before any other constraint of the
  new row is looked at, as SQLite does.
* No stored id is empty: every repository draws a new id for an object that has none.
* Money and zoom are reals, and fuzzy comparison is equality.

Where the code and what one would expect of it differ, the code is modelled and the difference is proved:

* A command nobody serves is answered with an Invalid message, which the client drops: such a request only ever times
  out (`Correlation.UnservedOnlyTimesOut`).
* A destroyed context takes its timer with it, so an abandoned request keeps its table entry until its reply
  (`Correlation.AbandonedWaitsForItsReply`).
* A user on two sockets loses the index entry when either closes (`Connections.SecondSocketIsLost`); the index is the
  exact inverse of the connections exactly while no user is on two (`Connections.InverseStep`).
* The room index forgets a user who leaves one of two rooms, who "leaves" a room he was never in, or whose former room
  is closed a second time. It is the converse of membership all along exactly if every operation met a guard that can
  be looked up beforehand (`Rooms.ConverseStep`, `Rooms.ConverseThroughout`).
* Closing a room does not refresh the room list, although common/Network/Protocol.h:147 says it does; only creating one
  does (`RoomManagement.StudySessionManager.CreateSession`, `CloseSession`). The list last sent stays current exactly
  as long as nobody joins, leaves, closes or turns a page of an open room (`Rooms.RoomListStaysCurrent`,
  `Rooms.RoomListCurrentThroughout`, `Rooms.ClosedRoomStaysListed`).
* A review update recalculates the book the caller names, not the review's own; the aggregates stay right exactly if
  the two agree or the stars do not change (`Ratings.UpdateAgreesExactlyIfHonest`).
* The cart ignores a discount that reaches the base price and charges the full price, although the book itself then
  sells for nothing (`Shop.LoadedCartCosts`).
* A promotion changes only the cart it is answered with: checkout loads the cart afresh, so a stored order's discount
  is always zero and its amounts balance exactly if no book was discounted (`Shop.StoredTotalsBalance`). For an order
  made from any cart with any promotion see `Shop.PurchaseAddsUp`.
* The first book a new customer adds is not stored, although the request succeeds: the cart row it depends on is only
  made afterwards (`Shop.FirstBookIsLost`).
* "Move up" gives a shelf the sort order below its neighbour's; it moves exactly one place only if the shelf two above
  sorts before that, and with the initial equal orders it jumps to the top (`Shelves.MoveUpIsOnePlace`,
  `Shelves.EqualOrdersJumpToTop`).
* With a clock that goes back, the request window can keep stale entries or miss requests
  (`RequestStatistics.BackwardClockKeepsStaleEntries`, `RequestStatistics.BackwardClockMissesRequests`); when exactly it
  stays right is `RequestStatistics.WindowStep` and `RequestStatistics.WindowThroughout`.

## Model

| member | source | states |
|---|---|---|
| Messages.JsonRoundTrip | common/Network/Message.cpp:34-68 | a message survives toJson and fromJson with command, status, payload, id and error text intact, whatever they hold |
| Messages.MissingFieldTakesItsDefault | common/Network/Message.cpp:46-58 | without its command a message is Invalid, without its status a success, without its payload empty; the other fields stay |
| Messages.MissingTextTakesItsDefault | common/Network/Message.cpp:54-66 | without its id a message gets the one its constructor drew, without an error text an empty one; the other fields stay |
| Messages.WhenValid | common/Network/Message.cpp:50-52 | an object is a valid message if and only if its command is a whole 32-bit number that is no multiple of 2^16, and the command is its low sixteen bits |
| JsonCodec.LawfulCodecExists | common/Network/PacketParser.cpp:12-15 | the law asked of the JSON codec, decode(encode(o)) = o for every object, is met by some codec |
| JsonCodec.JsonRoundTrips | common/Network/PacketParser.cpp:62-74 | every JSON value written by that codec, in front of any bytes, is read back with those bytes left |
| Framing.DecodeEncodedSize | common/Network/PacketParser.cpp:21-24 | the big-endian header reads back as the size modulo 2^32 |
| Framing.FrameRoundTrip | common/Network/PacketParser.cpp:12-27 | a framed body in front of any stream is read back first if and only if its length fits the header |
| Framing.FramesAppend | common/Network/PacketParser.cpp:29-31 | later bytes never change frames already complete; only the unread tail matters |
| Framing.FramesOfConcat | common/Network/PacketParser.cpp:17-24 | concatenated frames are cut back into exactly their bodies, with nothing left over |
| Framing.ParseAllAppend | common/Network/PacketParser.cpp:62-74 | each frame is parsed on its own, so a malformed body never disturbs the messages after it |
| Framing.WhichBodiesCount | common/Network/PacketParser.cpp:62-74 | a body gives a valid message if and only if it is JSON, an object, and its command survives the casts |
| Framing.PackRoundTrip | common/Network/PacketParser.cpp:12-27 | any sequence of messages packed back to back reads back as the same messages, every field intact |
| PacketParsing.ReadyIsSound | common/Network/PacketParser.cpp:45-46 | the quint32 cast of the buffer length never reports a frame that is not there, and below 2^32 buffered bytes misses none |
| PacketParsing.PacketParser.HasNextPacket | common/Network/PacketParser.cpp:33-47 | caches the header without touching the buffer, and answers whether the buffer starts with a whole frame (up to the cast) |
| PacketParsing.PacketParser.NextPacket | common/Network/PacketParser.cpp:49-75 | removes exactly the first frame and returns its message, or Invalid for a bad body; without a frame changes nothing but the cache |
| PacketParsing.PacketParser.Feed | common/Network/PacketParser.cpp:29-31 | appends the bytes and keeps the cached size valid |
| PacketParsing.PacketParser.Clear | common/Network/PacketParser.cpp:77-80 | empties buffer and cache together |
| Framing.OnlyAnEmptyTailIsHarmless | src/client/network/ClientNetworkManager.cpp:168-177 | bytes of an unfinished frame kept in the parser leave the frames of every following stream unchanged if and only if there are none |
| PacketParsing.PacketParser.Drain | src/client/network/ClientNetworkManager.cpp:179-192 | the drain loop ends, emits the next stretch of the batch reading, and stops only when no frame is ready |
| PacketParsing.Receive | common/Network/PacketParser.cpp:29-75 | for any byte stream in any chunks with drains anywhere, the output and the unread tail are those of one batch reading |
| PacketParsing.ReceivePacked | common/Network/PacketParser.cpp:12-75 | packed messages cut into any pieces and drained at the end come out as the same messages |
| ClientService.RouteTakesOnlyItsOwn | src/client/network/ClientNetworkManager.cpp:194-234 | a response handler leaves the table exactly through a valid non-event message carrying its own id; no other handler is touched |
| ClientService.EveryListenerHears | src/client/network/ClientNetworkManager.cpp:179-234 | reading any stretch of messages calls, in order, the event handler of every event that has one and the command handler of every other valid message that finds no waiting response handler, and takes exactly the response handlers whose reply was among them |
| ClientService.BadFrameIsDropped | src/client/network/ClientNetworkManager.cpp:179-186 | a frame that is no JSON object changes nothing on the client |
| ClientService.ClientNetworkManager.RegisterRequestHandler | src/client/network/ClientNetworkManager.cpp:114-118 | the later handler of a command replaces the earlier one, other commands keep theirs |
| ClientService.ClientNetworkManager.UnregisterRequestHandler | src/client/network/ClientNetworkManager.cpp:120-123 | removes exactly that command's handler |
| ClientService.ClientNetworkManager.RegisterEventHandler | src/client/network/ClientNetworkManager.cpp:137-141 | the later handler of an event replaces the earlier one, other events keep theirs |
| ClientService.ClientNetworkManager.UnregisterEventHandler | src/client/network/ClientNetworkManager.cpp:143-146 | removes exactly that event's handler |
| ClientService.ClientNetworkManager.RegisterResponseHandler | src/client/network/ClientNetworkManager.cpp:125-129 | puts the handler under its id; an empty id is ignored |
| ClientService.ClientNetworkManager.UnregisterResponseHandler | src/client/network/ClientNetworkManager.cpp:131-135 | removes exactly that id's handler |
| ClientService.ClientNetworkManager.RouteResponse | src/client/network/ClientNetworkManager.cpp:194-234 | a command of 1000 or more goes to its event handler or to nobody and takes nothing; any other message takes and calls the response handler of its id, or else goes to the handler of its command or to nobody |
| ClientService.NetworkService.Call | client/src/services/NetworkService.cpp:131-147 | a reply sets the shared flag and posts the callback once if the context is alive, and hands a blocking call its result |
| ClientService.NetworkService.OnReadyRead | src/client/network/ClientNetworkManager.cpp:168-192 | the read slot feeds the bytes, accepts every complete valid message in order, and calls exactly the long-lived handlers those messages are for |
| ClientService.NetworkService.OnTimer | client/src/services/NetworkService.cpp:155-170 | the timeout unregisters the handler and posts the timeout once, or does nothing when a reply came first |
| ClientService.NetworkService.OnContextDestroyed | client/src/services/NetworkService.cpp:123-155 | a dead context takes its timers with it but leaves its handlers registered |
| ClientService.NetworkService.EndBlocking | client/src/services/NetworkService.cpp:87-93 | a blocking call returns its reply, or unregisters its handler and reports a timeout |
| Serving.RepliesAre | src/server/RequestHandlerBase.cpp:17-44 | every reply of a dispatch carries the command, status and payload its handler decided and the request's id; a command nobody serves gets one Invalid, BadRequest message with that id; an Invalid request gets nothing |
| Serving.BadFrameGetsNoReply | src/server/ClientConnection.cpp:117-131 | a frame that is no JSON object is not answered |
| Serving.BatchIsLogged | src/server/RequestRouter.cpp:45-71 | a slot counts one request for each valid message, under its name, and one error for each that nobody serves |
| Serving.RequestHandler.SendSuccess | src/server/RequestHandlerBase.cpp:17-27 | the reply has the command and payload passed in, status Success, and the current request's id, or its own if there is none |
| Serving.RequestHandler.SendError | src/server/RequestHandlerBase.cpp:29-44 | the reply has the command and status passed in, the error text as its payload if there is one, and the current request's id |
| Serving.RequestRouter.RegisterHandler | src/server/RequestRouter.cpp:26-32 | later registrations replace earlier ones for the same command only |
| Serving.RequestRouter.RegisterDefaultHandler | src/server/RequestRouter.cpp:34-37 | the handler for every command that has none of its own |
| Serving.RequestRouter.HandleRequest | src/server/RequestRouter.cpp:39-72 | one dispatch writes exactly the handler's replies in order, each with its command, status and payload and the request's own id, or one Invalid reply with that id, and counts it once as served or not |
| Serving.RequestRouter.ProcessPendingPackets | src/server/ClientConnection.cpp:117-131 | every complete valid frame is dispatched in order, answered under its own id, and counted, so the statistics go on by exactly the log of the slot; invalid frames are skipped |
| Correlation.InvRun | src/client/network/ClientNetworkManager.cpp:194-234 | the invariant linking tables, timers, flags, channels and histories holds in every reachable state |
| Correlation.AnsweredAsDecided | src/server/RequestHandlerBase.cpp:17-44 | over every run an answered request was dispatched as it was sent, and its answer has the command, status and payload of the first reply its handler decided that is neither Invalid nor an event |
| Correlation.HandlersGetTheirOwnReply | src/client/network/ClientNetworkManager.cpp:210-222 | in every run a response handler is called at most once, and only with the first deliverable reply the server produced for its own request, with the command, status and payload its handler decided |
| Correlation.TableIsExact | client/src/services/NetworkService.cpp:131-160 | the response table holds exactly the requests sent and neither answered nor timed out; short of a timeout, answered means exactly that a deliverable reply was read, and the first one is the answer |
| Correlation.PushesNeverConsume | src/client/network/ClientNetworkManager.cpp:198-208 | neither an event nor any other pushed message ever takes or calls a response handler |
| Correlation.CallbackPostedOnce | client/src/services/NetworkService.cpp:125-170 | an asynchronous callback is posted at most once, and while its context lives exactly when the request was answered or timed out; a request without one posts nothing |
| Correlation.DeadContextHearsNothing | client/src/services/NetworkService.cpp:138-168 | once its context is destroyed a request posts nothing any more, however long the run goes on |
| Correlation.OutcomesAreTrue | client/src/services/NetworkService.cpp:42-94 | what a callback or a blocking call reports is the request's own reply, as the server's handler decided it, or a timeout that really happened |
| Correlation.CallerIsGivenTheAnswer | client/src/services/NetworkService.cpp:61-153 | over every run a caller, blocking or not, is given the status, payload and error text its request's handler first answered with, or is told of a timeout that really happened |
| Correlation.AbandonedWaitsForItsReply | client/src/services/NetworkService.cpp:123-155 | once its context is gone, only its reply takes a request off the table |
| Correlation.LateReplyReachesNobody | client/src/services/NetworkService.cpp:80-92 | after a timeout, however long the run goes on, the reply is never delivered to that request's handler |
| Correlation.WhoStillWaits | src/server/RequestRouter.cpp:39-72 | with nothing in flight, a request still waits exactly if it did not time out and its dispatch produced nothing deliverable |
| Correlation.DeliverableIfAnswered | src/server/RequestRouter.cpp:39-72 | a dispatch produces something a response handler can be called with if and only if its command is served and the handler sends a reply that is neither Invalid nor an event |
| Correlation.WhoIsAnswered | src/server/RequestRouter.cpp:39-72 | with nothing in flight, a request that did not time out is answered if and only if it was dispatched to such a handler |
| Correlation.UnservedOnlyTimesOut | src/server/RequestRouter.cpp:60-68 | a request for a command nobody serves is never answered |
| Correlation.ListenersHearTheirs | src/client/network/ClientNetworkManager.cpp:194-234 | over every run of subscriptions, requests, pushes and replies the long-lived handlers are called, in order of arrival, exactly so: an event goes to the handler last subscribed to it, any other valid message that no request waits for to the handler last subscribed to its command |
| Correlation.SubscriberHearsEverything | src/client/network/ClientNetworkManager.cpp:198-208 | from its subscription until the next change of it, a handler is called once, in order, with every event of its command that the client reads; with nothing in flight that is everything the server wrote |
| WireRefinement.TakeCarries | common/Network/PacketParser.cpp:49-75 | a frame found in the receive buffer is the first message not yet read, unaltered |
| WireRefinement.RunRefines | src/client/network/ClientNetworkManager.cpp:95-192 | every run over bytes in any fragmentation is a run over whole messages with the same subscriptions |
| WireRefinement.HandlersGetTheirOwnReplyOverBytes | src/client/network/ClientNetworkManager.cpp:168-222 | the correlation guarantee holds over bytes, the content of the reply included |
| WireRefinement.TableIsExactOverBytes | client/src/services/NetworkService.cpp:131-170 | the exact response table and the one posted callback hold over bytes |
| WireRefinement.OutcomesAreTrueOverBytes | client/src/services/NetworkService.cpp:42-94 | over bytes too, what is reported is the request's own reply as its handler decided it, or a real timeout |
| WireRefinement.CallerIsGivenTheAnswerOverBytes | client/src/services/NetworkService.cpp:61-153 | over bytes too, a caller is given what its request's handler answered with, error text included |
| WireRefinement.PushesNeverConsumeOverBytes | src/client/network/ClientNetworkManager.cpp:179-208 | reading the frame of an event or of any other pushed message takes and calls no response handler |
| WireRefinement.ListenersHearTheirsOverBytes | src/client/network/ClientNetworkManager.cpp:168-234 | over bytes too, the long-lived handlers are called exactly for the frames read that are theirs, in order |
| WireRefinement.SubscriberHearsEverythingOverBytes | src/client/network/ClientNetworkManager.cpp:168-208 | a subscriber hears every event of its command whose frame is read, once and in order |
| WireRefinement.LateReplyReachesNobodyOverBytes | client/src/services/NetworkService.cpp:80-92 | however the bytes of a late reply arrive, no later step delivers it |
| WireRefinement.UnservedOnlyTimesOutOverBytes | src/server/RequestRouter.cpp:60-68 | over bytes too, a request nobody serves is never answered |
| WireRefinement.IdleLinkIsEmpty | common/Network/PacketParser.cpp:33-47 | when all bytes arrived and no frame is ready, no message is stuck between the ends |
| WireRefinement.DrainedMeansAnswered | src/server/ClientConnection.cpp:117-131 | once both directions are drained, a request that did not time out is answered exactly if the server produced something deliverable for it |
| WireRefinement.DrainedMeansHeard | common/Network/PacketParser.cpp:33-47 | once drained, the client has read everything the server wrote |
| RequestStatistics.CountersOfRun | src/server/RequestStats.cpp:16-37 | over every run each request is counted once in total, once under its command and once as finished, with the time it took; errors are the unserved ones and never exceed requests |
| RequestStatistics.OneIsActive | src/server/RequestStats.cpp:16-32 | between the arrival of a request and its end exactly one is counted as active |
| RequestStatistics.PruneIsFilter | src/server/RequestStats.cpp:25-27 | on an ascending queue, dropping at the head is dropping everything too old |
| RequestStatistics.WindowOfRun | src/server/RequestStats.cpp:21-27 | with a clock that never goes back the queue is the filter of the whole history to the last 60000 ms |
| RequestStatistics.PruneExact | src/server/RequestStats.cpp:25-27 | on any queue, dropping at the head is dropping everything too old if and only if nothing too old stands behind something that is not |
| RequestStatistics.WindowStep | src/server/RequestStats.cpp:16-28 | for any clock: from a queue that is the last minute of the history, the next request leaves it so if and only if, coming forward, nothing too old stands behind something that is not or, going back, no request lies between the two windows' starts |
| RequestStatistics.WindowThroughout | src/server/RequestStats.cpp:16-28 | over every run, whatever its clock, the queue is the last minute all along if and only if every time was in step in that sense |
| RequestStatistics.BackwardClockKeepsStaleEntries | src/server/RequestStats.cpp:24-27 | a clock going back after which an entry is kept too long |
| RequestStatistics.BackwardClockMissesRequests | src/server/RequestStats.cpp:24-27 | a clock going back after which an entry inside the window is gone |
| RequestStatistics.ReplayContinues | src/server/RequestStats.cpp:16-37 | counting on from what a history left is counting the longer history |
| RequestStatistics.RequestStats.Request | src/server/RequestStats.cpp:16-28 | counters and pruned queue after one request |
| RequestStatistics.RequestStats.ErrorRate | src/server/RequestStats.cpp:50-52 | the largest whole percentage that does not exceed the share of errors among the requests, and zero without requests |
| Connections.SoundRun | src/server/ConnectionManager.cpp:82-110 | in every reachable state an entry of the index points to a live connection of that very user |
| Connections.LookupIsSound | src/server/ConnectionManager.cpp:117-122 | looking up a user gives nobody or a live connection with that user, so two users never share one |
| Connections.ConnectionsAreTheirPast | src/server/ClientConnection.cpp:56-87 | over every run a connection has the user and flag last set since it was opened, is up until its link goes down, and is gone once removed |
| Connections.LookupStep | src/server/ConnectionManager.cpp:82-122 | after any run, one more operation makes a lookup of a user find the connection that has just become his, or nobody once a connection of his changes its user or is removed, and otherwise whom it found before |
| Connections.DeliverReachesThatUser | src/server/ConnectionManager.cpp:160-165 | a message to a user is written once to the connection found for him, if that is up, and to no other |
| Connections.EverybodyIsReached | src/server/ConnectionManager.cpp:154-158 | a message to everybody is written once to every connection whose link has not gone down since it was opened |
| Connections.InverseStep | src/server/ClientConnection.cpp:64-79 | a step from an exact index leaves it exact if and only if no user ends up on two live connections |
| Connections.InverseRun | src/server/ConnectionManager.cpp:82-110 | in runs where no two live connections hold the same user, the index is the exact inverse of the connections' users |
| Connections.InverseThroughout | src/server/ConnectionManager.cpp:82-110 | over every run the index is the exact inverse all along if and only if no user was ever on two live connections |
| Connections.LoginKeepsInverse | src/server/ClientConnection.cpp:64-79 | a login keeps the index exact if and only if no other live connection already holds the user |
| Connections.SecondSocketIsLost | src/server/ConnectionManager.cpp:88-91 | with one user on two sockets, closing either hides the other |
| Connections.RemoveTwice | src/server/ClientConnection.cpp:133-139 | the second of the two disconnect slots finds nothing left to do |
| Connections.ClientConnection.SetUserId | src/server/ClientConnection.cpp:64-79 | moves this connection's index entry and changes no other connection |
| Connections.ConnectionManager.RemoveConnection | src/server/ConnectionManager.cpp:82-98 | drops the connection and its user's entry; an unknown id changes nothing |
| Connections.ConnectionManager.GetConnectionByUserId | src/server/ConnectionManager.cpp:117-122 | returns exactly the connection the index finds |
| Connections.ConnectionManager.SendToUser | src/server/ConnectionManager.cpp:160-165 | writes to the found connection's outbox if it is up, and to no other |
| Connections.ConnectionManager.BroadcastMessage | src/server/ConnectionManager.cpp:154-158 | writes the message once to every connection that is up, and to no other |
| Rooms.InvRun | src/server/StudySessionManager.cpp:30-174 | every reachable room and every entry of the user index is good |
| Rooms.UserIndexIsSound | src/server/StudySessionManager.cpp:118-174 | a user's entry always points to an existing room that is not Closed and lists the user |
| Rooms.RoomsAreGood | src/server/StudySessionManager.cpp:30-174 | participants never repeat, a room not Closed has one, a Created room has exactly its host, no room is ever Paused |
| Rooms.RoomHistory | src/server/StudySessionManager.cpp:118-174 | over every run Closed is final, a room never returns to Created, and the note list only grows at its end |
| Rooms.RoomIsItsPast | src/server/StudySessionManager.cpp:75-174 | over every run a room has the book and host it was made with, lists in order of arrival whoever joined while it was open and has not left since, and is Closed, Active or Created as closing, leaving and joining made it |
| Rooms.NotesAreThoseAdded | common/Models/StudySession.cpp:82-90 | a room's notes are those added to it since it was made, in order |
| Rooms.PageIsTheLastTurn | src/server/StudySessionManager.cpp:176-186 | a room's page, zoom and sync flag are those of the last turn since it was made; before any, page 0, zoom 1 and not synced |
| Rooms.EntryIsItsPast | src/server/StudySessionManager.cpp:75-166 | a user's entry is the room he entered last, until he leaves any room or a room that lists him is closed |
| Rooms.ConverseStep | src/server/StudySessionManager.cpp:30-174 | from a state where every member of an open room has an entry pointing to it, an operation keeps that so if and only if its guard holds: who enters a room has no entry, who leaves has none elsewhere, and a closing room's members have none elsewhere |
| Rooms.ConverseThroughout | src/server/StudySessionManager.cpp:30-174 | over every run the index is the converse of membership all along if and only if every operation met its guard |
| Rooms.ConverseMeansOneRoom | src/server/StudySessionManager.cpp:43-43 | then a user is listed in an open room exactly if the entry says so, hence in at most one |
| Rooms.LeavingOneRoomForgetsTheOther | src/server/StudySessionManager.cpp:125-126 | a member of two rooms who leaves one has no entry although listed in the other |
| Rooms.StrangerLeavingForgetsHisRoom | src/server/StudySessionManager.cpp:125-126 | leaving a room one was never in forgets the room one is in |
| Rooms.ClosingAgainForgetsOtherRooms | src/server/StudySessionManager.cpp:159-165 | closing a closed room again forgets the rooms its former members are in by now |
| Rooms.RoomListShowsOpenRooms | src/server/StudySessionManager.cpp:387-403 | the room list shows every room that is not Closed exactly once, as it is now |
| Rooms.RoomListShowsThePast | src/server/StudySessionManager.cpp:387-403 | over every run the list shows exactly the open rooms, each once, with id, book, host, number of members, page last turned to, and state |
| Rooms.RoomListStaysCurrent | src/server/StudySessionManager.cpp:48-174 | an operation that makes no room leaves the room list last sent current if and only if it is one nobody could tell from the list: no joining, leaving or closing of an open room, and no new page in one |
| Rooms.RoomListCurrentThroughout | src/server/StudySessionManager.cpp:48-174 | until the next room is made, the list last sent stays current all along if and only if every operation was such a one |
| Rooms.ClosedRoomStaysListed | src/server/StudySessionManager.cpp:152-174 | a room made and closed: the list last sent still shows it |
| Rooms.TargetsOnce | src/server/StudySessionManager.cpp:405-416 | a connection is written to once if it is up and found for some participant, and otherwise not at all |
| Rooms.DeliverAllCopies | src/server/StudySessionManager.cpp:410-415 | a broadcast appends to each outbox as many copies as its connection is a target |
| Rooms.BroadcastReachesEachOnce | src/server/StudySessionManager.cpp:405-416 | in every reachable state of rooms and connections a broadcast reaches each participant's live registered connection exactly once and nobody else |
| RoomManagement.StudySession.AddParticipant | common/Models/StudySession.cpp:67-73 | appends the user unless already there |
| RoomManagement.StudySession.RemoveParticipant | common/Models/StudySession.cpp:75-80 | removes the first occurrence only |
| RoomManagement.StudySessionManager.CreateSession | src/server/StudySessionManager.cpp:30-73 | the new room has its host as only participant and as index entry, and the new room list goes to every connection that is up |
| RoomManagement.StudySessionManager.ActiveSessionsSummary | src/server/StudySessionManager.cpp:387-403 | the loop builds that room list |
| RoomManagement.StudySessionManager.JoinSession | src/server/StudySessionManager.cpp:75-116 | fails on an unknown or Closed room; otherwise joins once and broadcasts to the room as it then is |
| RoomManagement.StudySessionManager.LeaveSession | src/server/StudySessionManager.cpp:118-150 | removes the user, closes an emptied room, and broadcasts to those who remain |
| RoomManagement.StudySessionManager.CloseSession | src/server/StudySessionManager.cpp:152-174 | closes the room, forgets its participants' entries, and sends the closed notice to all of them and nothing else to anybody |
| RoomManagement.StudySessionManager.BroadcastToSession | src/server/StudySessionManager.cpp:405-416 | the loop delivers to every participant in order and changes nothing else |
| RoomManagement.StudySessionManager.SyncPageOf | src/server/StudySessionManager.cpp:176-199 | the room has that page and zoom and is synced, nothing else changes, and the room is told |
| RoomManagement.StudySessionManager.AddNoteTo | src/server/StudySessionManager.cpp:298-332 | the note ends the room's list of notes, nothing else changes, and the room is told |
| Ratings.AggregatesOfRun | common/Interfaces/IReviewRepository.cpp:46-151 | over every run of saves, updates naming their own book, removals and ratings, each book's cached count and average equal those of its rows, one review and one rating per book and user |
| Ratings.UpdateAgreesExactlyIfHonest | common/Interfaces/IReviewRepository.cpp:128-139 | after a review update all aggregates agree if and only if the caller named the review's book, the stars did not change, or nothing was updated |
| Ratings.CarelessUpdateGoesStale | common/Interfaces/IReviewRepository.cpp:133-137 | a concrete update that leaves an aggregate stale |
| Ratings.NextOperationRepairs | common/Interfaces/IRatingRepository.cpp:16-34 | the next successful operation naming the book repairs its aggregates |
| Ratings.AggregatesMean | common/Interfaces/IReviewRepository.cpp:44-64 | the count is the number of people with a review plus the number with a rating, the average lies in 1 to 5 when there is one and is zero otherwise |
| Ratings.RowsArePeople | common/Interfaces/IReviewRepository.cpp:106-113 | with one row per book and user, counting rows is counting distinct users |
| Ratings.UpsertIsMapUpdate | common/Interfaces/IReviewRepository.cpp:106-118 | saving stores exactly one opinion for that book and user, keeping the row's id, and touches no other |
| Ratings.CutIsMapRemoval | common/Interfaces/IReviewRepository.cpp:141-151 | removing a row removes that book and user's opinion and touches no other |
| Ratings.EditIsMapUpdate | common/Interfaces/IReviewRepository.cpp:128-139 | an edit by id changes the opinion stored under that id and no other |
| Ratings.DeleteIsMapRemoval | common/Interfaces/IReviewRepository.cpp:141-155 | a removal by id removes the opinion stored under that id and no other |
| Ratings.WhenAccepted | common/Interfaces/IReviewRepository.cpp:99-139 | a save or rating is accepted if and only if its stars are 1 to 5 and it replaces an opinion or has a new id, a known book and a known user; an update if and only if it names an id and its stars are in range or nobody's; a removal always |
| Ratings.RatingsAreTheLast | common/Interfaces/IRatingRepository.cpp:48-70 | over every run the rating stored for a book and user is the last one accepted and not removed since, and there is none otherwise |
| Ratings.ReviewsAreTheLast | common/Interfaces/IReviewRepository.cpp:99-155 | over every run the review stored for a book and user is the last one saved, with the stars and text of its last edit, marked as edited if it was, and none once removed |
| Ratings.MeanOfTheStars | common/Interfaces/IRatingRepository.cpp:16-34 | the cached mean times the cached count is the sum of the stars of all the book's reviews and ratings |
| Ratings.EditHere | common/Interfaces/IReviewRepository.cpp:133-136 | an edit keeps the number of stars and moves their sum by the difference |
| Ratings.Tables.RecalculateBookRating | common/Interfaces/IReviewRepository.cpp:46-64 | rewrites the aggregates of one existing book from both tables |
| Ratings.ReviewRepository.Save | common/Interfaces/IReviewRepository.cpp:99-126 | reports failure exactly when a constraint fails, and then changes nothing |
| Ratings.ReviewRepository.Update | common/Interfaces/IReviewRepository.cpp:128-139 | edits the row with that id and recalculates the book the caller named |
| Ratings.ReviewRepository.Remove | common/Interfaces/IReviewRepository.cpp:141-151 | deletes the row and recalculates the book it belonged to |
| Ratings.RatingRepository.SetStars | common/Interfaces/IRatingRepository.cpp:48-58 | fails exactly on a constraint and changes nothing then; otherwise those stars are stored for that book and user and the book is recalculated |
| Ratings.RatingRepository.RemoveStars | common/Interfaces/IRatingRepository.cpp:60-68 | removes that rating and recalculates |
| Pricing.CartInvariant | common/Models/Cart.cpp:27-101 | after any run of cart operations and item changes, books are distinct, quantities positive, both cached totals equal a fresh fold, and the total is not negative |
| Pricing.CartIsItsHistory | common/Models/Cart.cpp:27-60 | over every run a book's line is what its history makes it: title and prices as first added or last edited, quantities added up, gone once removed or cleared |
| Pricing.CartKeepsOrder | common/Models/Cart.cpp:27-70 | over every run the books stand in the order they came into the cart |
| Pricing.TotalsOfRun | common/Models/Cart.cpp:72-101 | over every run the subtotal is the lines at full price, and the total the lines at their selling prices less the promotion last set since the cart was cleared, or nothing if that is more |
| Pricing.PayableBounds | common/Models/Cart.cpp:97-99 | for non-negative prices and promotion the total lies between zero and the subtotal, and without promotion the clamp never fires |
| Pricing.SumOfPermutation | common/Models/Cart.cpp:83-95 | the totals do not depend on the order of the items |
| Pricing.PriceFollowsDiscount | common/Models/Book.cpp:88-186 | over every run of price and discount changes without direct overwrites the selling price is the discounted base price, never negative |
| Pricing.PriceAgreesUnlessOverwritten | common/Models/Book.cpp:81-186 | over every run, the selling price is the discounted base price if and only if it was not overwritten with another one since it was last recomputed |
| Pricing.PriceIsItsHistory | common/Models/Book.cpp:81-185 | over every run base price, discount, price and timed flag are those the history of settings, accepted discounts and clearings leaves |
| Pricing.AcceptedDiscountFits | common/Models/Book.cpp:159-171 | an accepted discount never exceeds the base price, and a percentage takes exactly that share off |
| Pricing.Book.ApplyPercentageDiscount | common/Models/Book.cpp:159-164 | out-of-range percentages change nothing |
| Pricing.Book.ApplyFixedDiscount | common/Models/Book.cpp:166-171 | amounts below zero or above the base price change nothing |
| Pricing.Book.SetDiscountValue | common/Models/Book.cpp:94-98 | stores the discount and recomputes the price, unless nothing changed |
| Carts.CartItem.SetQuantity | common/Models/CartItem.cpp:46-52 | clamps to at least one and, on a change, makes the holding cart recompute its totals |
| Carts.CartItem.SetUnitPrice | common/Models/CartItem.cpp:34-38 | a changed price reaches the totals of the holding cart |
| Carts.CartItem.SetDiscountedUnitPrice | common/Models/CartItem.cpp:40-44 | a changed selling price reaches the totals of the holding cart |
| Carts.Cart.RecalculateTotal | common/Models/Cart.cpp:78-101 | the loop computes subtotal and total of the items as they are |
| Carts.Cart.AddItem | common/Models/Cart.cpp:27-48 | merges quantities into the item of the same book, or appends the item and listens to it |
| Carts.Cart.RemoveItem | common/Models/Cart.cpp:50-60 | removes the item of that book only |
| Carts.Cart.ClearItems | common/Models/Cart.cpp:62-70 | empties the cart and zeroes all three amounts |
| Carts.Cart.SetDiscountTotal | common/Models/Cart.cpp:72-76 | stores the promotion and recomputes, unless nothing changed |
| Shop.LoadedCartCosts | common/Interfaces/ICartRepository.cpp:30-46 | a loaded cart costs the books' selling prices plus the full price of every book whose discount reaches it; equality holds if and only if there is none |
| Shop.AnyListingCostsTheSame | common/Interfaces/ICartRepository.cpp:31-36 | the totals of a loaded cart do not depend on the order the database lists its rows in |
| Shop.SavedCart | common/Interfaces/ICartRepository.cpp:49-61 | saving replaces the user's rows by the given lines and touches nobody else's |
| Shop.CheckoutDone | src/server/handlers/CartRequestHandler.cpp:272-325 | a successful checkout adds one order with the cart's lines, bumps sales by its quantities, clears that user's cart, and touches nothing else |
| Shop.WhatCheckoutCharges | src/server/handlers/CartRequestHandler.cpp:272-340 | a successful checkout stores a paid and completed order in the buyer's name that charges what the cart costs, and replies with that order, that charge and the cart's books |
| Shop.WhatCheckoutStores | common/Interfaces/IOrderRepository.cpp:75-97 | and one line for every book of the cart, in order: its title, base price and quantity, and their product |
| Shop.CheckoutEnds | src/server/handlers/CartRequestHandler.cpp:272-325 | which of the four ends a checkout comes to, and that none but success changes more than making the cart row |
| Shop.PurchaseAddsUp | common/Interfaces/IBookService.cpp:197-224 | an order made from any consistent cart with any promotion has its lines one for one and charges max(0, selling prices less promotion), between nothing and the subtotal; its three amounts balance if and only if the promotion is the whole subtotal, or nothing was discounted and the promotion does not exceed it |
| Shop.NewOrderOk | common/Interfaces/IOrderRepository.cpp:53-97 | in a checkout, whose cart comes from the tables and so carries no promotion, the stored line totals sum to the subtotal, and the final total lies between zero and that |
| Shop.ShopKeepsBooks | src/server/handlers/CartRequestHandler.cpp:272-325 | over every run of cart edits, price changes and checkouts by any users, every order adds up and every book's sales are exactly the copies in orders |
| Shop.OrdersAreForever | common/Interfaces/IOrderRepository.cpp:53-97 | a stored order and its lines never change again |
| Shop.OrderReadsBack | common/Interfaces/IOrderRepository.cpp:21-47 | read back in any row order, now or after any later run, an order has its header and, as a multiset, exactly the cart's lines |
| Shop.OrderReadsBackAsBought | common/Interfaces/IOrderRepository.cpp:21-47 | so, now or after any later run, the order is the buyer's, charges what the cart cost and lists each book once with the title, base price and quantity it had in the cart |
| Shop.StoredTotalsBalance | src/server/handlers/CartRequestHandler.cpp:272-299 | a checkout stores a discount of zero, because no promotion is kept with a cart, so subtotal and final total agree if and only if no book in the cart was discounted |
| Shop.WhoIsAdmitted | src/server/handlers/CartRequestHandler.cpp:203-231 | an add-to-cart request is taken up if and only if the book is known and active and no completed order of this user lists it; otherwise it changes nothing |
| Shop.FirstBookIsLost | src/server/handlers/CartRequestHandler.cpp:232-240 | an accepted add-to-cart request puts the book in the cart with quantity one if and only if the user's cart row existed already, and makes the row; no other row changes |
| Shop.FirstBookIsLostHere | src/server/handlers/CartRequestHandler.cpp:232-240 | one book, one customer, no cart row: the request is accepted and the cart stays empty |
| Shop.WhatRequestsDo | src/server/handlers/CartRequestHandler.cpp:244-270 | dropping a book removes that row, clearing removes all of the user's rows, and no other row changes |
| Shop.EveryBookIsBoughtOnce | src/server/handlers/CartRequestHandler.cpp:203-336 | over every run of cart and checkout requests by any users, no cart holds a book its user owns, quantities are one, and no user has a book in two order lines |
| Shop.SalesAreOwners | src/server/handlers/CartRequestHandler.cpp:224-230 | so a book's sales since the opening are the number of users who own it |
| Shop.CartsArePrivate | common/Interfaces/ICartRepository.cpp:49-114 | over any run a user's cart rows change only through that user's own steps |
| Shop.CartRowsAreTheirHistory | common/Interfaces/ICartRepository.cpp:19-114 | over every run of cart steps and checkouts a user's cart holds exactly the copies of a book that the history asks for, and has its cart row exactly once something made it |
| Shop.TagsAreTheLastSet | src/server/handlers/CartRequestHandler.cpp:301-317 | over every run a book keeps its title and has the base price and discount last set, whatever is sold in between |
| Shop.SaveSucceeds | common/Interfaces/ICartRepository.cpp:49-80 | saving a cart succeeds if and only if the user has a cart and every line is a known book with a positive quantity |
| Shop.OnlySalesSell | src/server/handlers/CartRequestHandler.cpp:301-324 | every other step, and every failed or rolled-back checkout, leaves orders, their lines and sales alone |
| ShopRepositories.CartRepository.GetOrCreateForUser | common/Interfaces/ICartRepository.cpp:19-47 | builds the cart of the user's rows in listing order, with its totals |
| ShopRepositories.CartRepository.AddItem | common/Interfaces/ICartRepository.cpp:63-80 | sets the quantity of one row, or fails on a non-positive quantity, missing cart or unknown book |
| ShopRepositories.CartRepository.UpdateItemQuantity | common/Interfaces/ICartRepository.cpp:82-89 | a quantity of zero or less removes the row; an absent row stays absent |
| ShopRepositories.CartRepository.Save | common/Interfaces/ICartRepository.cpp:49-61 | clears the user's rows and puts the lines one by one, reporting whether every one was accepted |
| ShopRepositories.BookService.PurchaseCart | common/Interfaces/IBookService.cpp:197-224 | refuses an empty cart; otherwise an order with the cart's totals and one line per item |
| ShopRepositories.OrderRepository.Save | common/Interfaces/IOrderRepository.cpp:53-97 | fails on a known id or unknown user; otherwise header and one row per line of a known book |
| ShopRepositories.OrderRepository.FindById | common/Interfaces/IOrderRepository.cpp:114-119 | loads the header and the lines in listing order |
| ShopRepositories.CartRequestHandler.HasPurchased | src/server/handlers/CartRequestHandler.cpp:192-201 | whether some line of a completed order of that user names the book |
| ShopRepositories.CartRequestHandler.HandleAddToCart | src/server/handlers/CartRequestHandler.cpp:203-242 | refuses an empty, unknown, inactive or owned book; otherwise puts it with quantity one, then makes the cart row |
| ShopRepositories.CartRequestHandler.HandleRemoveFromCart | src/server/handlers/CartRequestHandler.cpp:244-256 | removes that book's row |
| ShopRepositories.CartRequestHandler.HandleClearCart | src/server/handlers/CartRequestHandler.cpp:265-270 | removes all of the user's rows |
| ShopRepositories.CartRequestHandler.HandleCheckout | src/server/handlers/CartRequestHandler.cpp:272-340 | the whole request: empty cart, failed save, failed commit with rollback, or success |
| Shelves.ReorderGivesThatOrder | client/src/services/LibraryService.cpp:454-467 | numbering a permutation of a user's shelves, when every request arrives, makes every listing equal that permutation and changes no other shelf |
| Shelves.LostRequestsKeepTheRest | client/src/services/LibraryService.cpp:456-461 | whatever requests are lost, the shelves whose requests arrived are listed in the order asked for |
| Shelves.NumberedAt | client/src/services/LibraryService.cpp:456-461 | the shelf at a position gets that number if its request arrived, and keeps its own if not |
| Shelves.OthersShelvesAreSafe | src/server/handlers/LibraryRequestHandler.cpp:373-416 | whatever shelves a user's requests name, nobody else's shelf changes |
| Shelves.MoveUp | client/src/services/LibraryService.cpp:380-415 | the shelf is listed strictly before its old upper neighbour and everything with that sort order, the others keep their order up to exact ties |
| Shelves.MoveDown | client/src/services/LibraryService.cpp:417-452 | the shelf is listed strictly after its old lower neighbour and everything with that sort order, the others keep their order up to exact ties |
| Shelves.MoveUpIsOnePlace | client/src/services/LibraryService.cpp:395-404 | without ties, up means exactly one place if and only if the shelf two above sorts strictly before the new key |
| Shelves.MoveDownIsOnePlace | client/src/services/LibraryService.cpp:432-441 | without ties, down means exactly one place if and only if the shelf two below sorts strictly after the new key |
| Shelves.EqualOrdersJumpToTop | client/src/services/LibraryService.cpp:399-404 | among equal sort orders a move up puts the shelf first |
| Shelves.ListingIsUnique | common/Interfaces/IShelfRepository.cpp:44-57 | without ties there is only one listing by sort order and name |
| Shelves.BinaryIsLawful | common/Interfaces/IShelfRepository.cpp:47-50 | comparing names character by character is a total order, as the listing results ask for |
| Shelves.RequestsMove | client/src/services/LibraryService.cpp:385-404 | with an up-to-date cache the order asked for is one less than that of the shelf above or one more than that of the shelf below, and nothing is sent for the first, last or an unknown shelf |
| Shelves.LibraryServer.UpdateShelf | src/server/handlers/LibraryRequestHandler.cpp:373-416 | refuses an empty, unknown or foreign shelf; otherwise changes only its sort order |
| Shelves.LibraryService.MoveShelfUp | client/src/services/LibraryService.cpp:380-415 | sends at most one update, which may be lost either way; succeeds exactly if it arrived, was accepted and was answered, and then shows the reply or nothing |
| Shelves.LibraryService.MoveShelfDown | client/src/services/LibraryService.cpp:417-452 | the same downwards |
| Shelves.LibraryService.ReorderShelves | client/src/services/LibraryService.cpp:454-467 | numbers every shelf in turn, whatever becomes of each request, and fetches the library again |
| Passwords.GenerateRandomString | common/Utils/CryptoUtils.cpp:48-57 | the drawn characters of the alphabet in order, never the separator |
| Passwords.OnlyThatPassword | common/Utils/PasswordHasher.cpp:7-26 | a stored password accepts exactly the password it was made from |
| Passwords.WhatIsAccepted | common/Utils/PasswordHasher.cpp:14-26 | a stored text accepts a password if and only if it is some salt without a separator, the separator, and the digest of that salt followed by the password |
| Passwords.StoredTextsDiffer | common/Utils/PasswordHasher.cpp:7-12 | two stored texts are equal if and only if salt and password are |
| Passwords.SeparatorInSaltLocksOut | common/Utils/PasswordHasher.cpp:16-22 | with a separator in the salt no password at all would be accepted |
| Passwords.IdealDigestExists | common/Utils/CryptoUtils.cpp:11-13 | the assumptions on the digest, injective and without the separator, can be met together |
| Accounts.SameOutcome | common/Interfaces/IAuthService.cpp:67-203 | the service accepts an operation exactly when the plain map from folded name to password does |
| Accounts.TableIsAMap | common/Interfaces/IAuthService.cpp:67-263 | over every run of registrations, logins, changes, resets and status changes the users table refines that map |
| Accounts.FoldIgnoresCase | database/schema.sql:32 | two names are the same in the table if and only if they have one length and at every place the same character or the two cases of one ASCII letter |
| Accounts.LoginTakesTheLatestPassword | common/Interfaces/IAuthService.cpp:102-135 | after any run login succeeds exactly for the current password of a Pending or Active account whose name is the one given but for the case of ASCII letters, and no two names are the same in that sense |
| Accounts.RegisteredCanLogIn | common/Interfaces/IAuthService.cpp:67-135 | a new account lets in exactly its password under any spelling of its name and changes no other login; a reset of it asks for its answer in normal form |
| Accounts.WhoMayRegister | common/Interfaces/IAuthService.cpp:67-100 | registration succeeds if and only if password and answer are given and no account has that name in any spelling, that id or that e-mail |
| Accounts.StatusDecides | common/Interfaces/IAuthService.cpp:117-128 | after a change of status that account's logins succeed exactly if the status is Active or Pending and the password is right; every other login stays as it was |
| Accounts.ChangeReplaces | common/Interfaces/IAuthService.cpp:145-195 | a successful change or reset lets in exactly the new password for that account and leaves every other login as it was |
| Accounts.AuthService.IsUsernameUnique | common/Interfaces/IAuthService.cpp:197-204 | true exactly if no stored name is this one but for the case of ASCII letters |
| Accounts.AuthService.RegisterAccount | common/Interfaces/IAuthService.cpp:67-100 | fails on empty input, taken name, id or e-mail; otherwise stores salted hashes of password and normalised answer |
| Accounts.AuthService.LogIn | common/Interfaces/IAuthService.cpp:102-135 | returns an account of that name, in whatever spelling, exactly when the login succeeds, and otherwise nobody |
| Accounts.AuthService.ChangeTo | common/Interfaces/IAuthService.cpp:145-168 | replaces the hash only after the old password verified |
| Accounts.AuthService.Reset | common/Interfaces/IAuthService.cpp:170-195 | replaces the hash only after the normalised answer verified |
| Isbn.IsValidIsbn | common/Utils/ValidationUtils.cpp:55-61 | accepts exactly the texts that, without hyphens and spaces, satisfy the ten- or the thirteen-digit rule |
| Isbn.IsValidIsbn10 | common/Utils/ValidationUtils.cpp:63-80 | nine digits and a digit or X, with a weighted sum divisible by 11 |
| Isbn.IsValidIsbn13 | common/Utils/ValidationUtils.cpp:82-92 | thirteen digits with a weighted sum divisible by 10 |
| Isbn.CheckDigit10 | common/Utils/ValidationUtils.cpp:63-80 | ten characters are an ISBN if and only if nine digits are followed by the check digit, the sum of the nine weighted 1 to 9 modulo 11, X standing for ten |
| Isbn.CheckDigit13 | common/Utils/ValidationUtils.cpp:82-92 | thirteen characters are an ISBN if and only if they are digits and the last completes the others, weighted 1 and 3 by turns, to a multiple of ten |
| Isbn.SeparatorsDoNotCount | common/Utils/ValidationUtils.cpp:55-58 | hyphens and spaces never count, wherever they are typed, and nothing else is taken away |
| Isbn.EverySingleErrorIsCaught | common/Utils/ValidationUtils.cpp:55-92 | in a valid text with any hyphens and spaces, replacing one character is accepted exactly if its value stays the same |
| Isbn.WhichSwapsAreMissed | common/Utils/ValidationUtils.cpp:55-92 | a swap goes unnoticed exactly for equal digits (ten characters), or for positions of equal weight or values equal or differing by 5 (thirteen) |
| Isbn.Change10 | common/Utils/ValidationUtils.cpp:63-80 | one changed character of a valid ISBN-10 is accepted exactly if its value stays the same |
| Isbn.Change13 | common/Utils/ValidationUtils.cpp:82-92 | one changed character of a valid ISBN-13 is accepted exactly if its value stays the same |
| Isbn.Swap10 | common/Utils/ValidationUtils.cpp:63-80 | swapping any two characters of a valid ISBN-10 is caught unless they are equal digits |
| Isbn.Swap13 | common/Utils/ValidationUtils.cpp:82-92 | a swap in a valid ISBN-13 is missed exactly for equal weights or values equal or differing by 5 |
| Isbn.AdjacentSwap13 | common/Utils/ValidationUtils.cpp:82-92 | a swap of neighbouring unequal digits is missed exactly when they differ by 5 |

## Left out

- Sockets, connection attempts, reconnect timers and partial writes; a request whose write is dropped is modelled, a
  reply lost on the server's side is a handler that sends fewer replies. Runs are over one connection. The client does not
  clear its parser when it reconnects; `Framing.OnlyAnEmptyTailIsHarmless` says when that matters.
- Null handler functions in the client's tables, and the exact order of nested event loops: a blocking call may end at
  any later moment.
- The JSON text codec, UUIDs, the clock, SHA-256, lower-casing and trimming of answers, and the character tables behind
  digit tests: parameters.
- Overflow of C++ `int` in page numbers, quantities, counters and sort orders.
- PacketParsing.PacketParser.Drain: all complete frames come out only below 2^32 buffered bytes, because the
  readiness test casts the buffer length.
- WireRefinement.RunRefines: messages are assumed to fit the quint32 header, which is exactly when one survives framing.
- The contents of the other event payloads, invitations, state sync and enriched participant lists: they send or read,
  and change no room.
- Discount codes: the handler answers with a recalculated cart and counts a use, and keeps neither with the cart.
- Whether a book is active: the catalogue's answer is a parameter of the add-to-cart request.
- Raw access to a connection's user id by connections that are no longer live.
- RequestStats.topCommands: its order among equal counts is unspecified.
- The review table's pins, flags, helpful and reply counters, and the book repository's own writes of the aggregates
  (a book edit saves whatever aggregates it loaded).
- `Book::isFree` and `CartItem::lineTotal`: the flag is stale for books loaded at base price 0, and the line total
  returns the discount.
- CartItem.setBookId on an item already in a cart, and adding one item object to two carts: no caller does either.
- Book deletion and other writers of the shop's tables; sending of sale notifications.
- Shelf fields other than name and sort order; replies of other requests that replace the client's library cache.
- Accounts: profile edits, publisher profiles, roles; null (as opposed to empty) column values.
- Book search, the discount sweep, publisher and administrator services, and everything in the user interface: display
  logic without state that another property depends on.
