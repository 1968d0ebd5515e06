# EChat, modelled and verified

EChat is a chat program: a C++ server over MySQL and a Qt client, speaking JSON in
length-prefixed frames over TCP.  This project models three of its parts in Dafny and proves
what they promise, and, where the code keeps a promise only sometimes, exactly when.

**The wire** (`Framing`, `ServerWire`, `ServerStream`, `WorkerLoop`, `ClientWire`, `EndToEnd`).
`Framing.Parse` is one pure parser of four-byte big-endian lengths and payloads.  The server's
looping `Unpack` and the client's resumable `on_readyRead` are two imperative decoders, over
sockets that cut the stream anywhere; both are proved to refine the parser, and the two encoders
to be inverted by it.  A non-blocking socket is the script of what its `read` and `write` calls
will meet.

**The server's state** (`Tables`, `DataBase`, `Handlers`, `Server`, and the theorems in
`Frames`, `Effects`, `Integrity`, `Agreement`, `Membership`, `Delivery`, `Numbers`, `Limits`, `Sync`, `Survival`, `IdPool`).  `Tables` says what each SQL
statement does under the schema's foreign keys and cascades; `Handlers.Handle` is the step
function of the whole server state (tables, registry, group map, everything sent).  The classes
`DataBase.DataBase` and `Server.Server` carry the loops and the order of statements and replies of
the source, and every method is proved to take the step that the function describes.  The theorems
about every run of that function stand as postconditions of `HandleRequest` and `Serve`.

**The session** (`FdTool`, `Misrouting`, `Session`, `SessionRules`, `Routing`).  The registry of
online users, connections over the life of the server, and the login, switch and logout handshake
over FIFO channels, whose server is the same state machine.

The results that say where the code falls short come as equivalences with a condition that can be
checked beforehand: `ServerStream.ServerDecodesExactly` (EAGAIN inside a header),
`ClientWire.NextConnection` (a connection lost inside a frame's body), `EndToEnd.FileArrives` (a NUL in
the file), `Agreement.HandleKeepsIff` (a leader who leaves, strangers who join),
`Membership.MapStaysFreshIff` (the group map after a change of membership),
`Numbers.DisjointKeepsIff` (a user and a group with one number), `Sync.HandleCoversIff` and
`Limits.ReturnedIff` (a chat closed before the sync, more pending than the limits),
`SessionRules.CanGoWrongIff` (a button pressed too early), `Routing.ReconnectedIff` (a connection
remade before the old one is cleaned up).

## Model

| member | source | states |
|---|---|---|
| Framing.ParseResumes | Client-EChat/network/client.cpp:462-509 | Framing is compositional: a parse may stop anywhere and go on from the bytes left over, for any cut of any stream |
| Framing.ParseEncodeAll | Server-EChat/src/Server.cpp:253-270 | Decoding the concatenated encodings of any non-empty payloads gives them back, whatever follows |
| Framing.ParseIsEncoding | Server-EChat/src/Server.cpp:278-344 | Every stream is the encoding of the frames found in it, then the rest: nothing is invented, dropped or blended |
| Framing.UniquelyDecodable | Server-EChat/src/Server.cpp:253-270 | No stream encodes two different lists of payloads |
| Framing.SplitAgreesWithParse | Server-EChat/src/Server.cpp:278-344 | Any split of an unstuck stream into frames and a remainder is the parser's split |
| Framing.LengthOfHeader | Server-EChat/src/Server.cpp:309 | The four big-endian bytes of a signed 32-bit length are read back as that length, whatever follows |
| Framing.HeaderOfLength | Server-EChat/src/Server.cpp:261-266 | And any four bytes are those of the length read from them |
| Framing.HeaderBytes | Server-EChat/src/Server.cpp:261-266 | Written out: the length is the value of the four bytes, most significant first, in two's complement |
| Framing.NulComesOff | Client-EChat/network/client.cpp:394-411 | Every payload with the client's NUL is a C string for the server, the text itself if and only if it holds no NUL; without that NUL it would be none |
| ServerWire.Pack | Server-EChat/src/Server.cpp:253-270 | The buffer filled in place is the encoding; an empty text gives no frame |
| ServerWire.Connection.Unpack | Server-EChat/src/Server.cpp:278-344 | The two loops over the socket return, for every read schedule, what the specification of one call says: payload, 0 or -1, and the same events left |
| ServerWire.Connection.ReadHead | Server-EChat/src/Server.cpp:284-304 | The header loop over short reads, EAGAIN, reset and other errors |
| ServerWire.Connection.ReadBody | Server-EChat/src/Server.cpp:317-341 | The body loop waits out every EAGAIN and fills the buffer in order |
| ServerWire.Connection.Send | Server-EChat/src/Server.cpp:347-387 | However short the writes, the wire gets the frame; on a failing write exactly the part that the writes before it took |
| ServerWire.ReachExactly | Server-EChat/src/Server.cpp:358-384 | Everything is written unless a write fails; then as much as the writes before it took |
| ServerStream.UnpackEffect | Server-EChat/src/Server.cpp:278-344 | One `Unpack` call against the parser, with each way it can lose bytes |
| ServerStream.ServerRefinesParser | Server-EChat/src/Server.cpp:278-344 | For every fragmentation with no EAGAIN inside a header and no other error inside a frame, repeated `Unpack` calls are the parser |
| ServerStream.ServerDecodesExactly | Server-EChat/src/Server.cpp:294-301 | The payloads come out exactly as sent if and only if the schedule is lossless: an EAGAIN inside a header always costs |
| ServerStream.BytesAreConserved | Server-EChat/src/Server.cpp:278-344 | Frames come out of bytes: never more than arrived, and strictly fewer when the schedule is not lossless |
| ServerStream.SplitHeaderIsLost | Server-EChat/src/Server.cpp:294-301 | A concrete stream with EAGAIN in a header whose frame is lost |
| ServerStream.ZeroMeansNoMoreFrames | Server-EChat/src/Server.cpp:288-293 | Result 0 means that no whole frame is left, as neither encoder sends an empty one |
| ServerStream.WorkersCollect | Server-EChat/src/Server.cpp:278-283 | Any interleaving of workers on one descriptor yields a prefix of what one worker would, and all of it with enough calls |
| ServerStream.WorkersPartition | Server-EChat/src/Server.cpp:190-245 | Every frame goes to exactly one worker; in time order their results are the list sent |
| WorkerLoop.DrainsToTheEnd | Server-EChat/src/Server.cpp:200-224 | On a stream of data up to its end, in any pieces, a worker takes every frame and then finds the end |
| WorkerLoop.DrainsToAgain | Server-EChat/src/Server.cpp:225-228 | On data that ends with a whole frame, and then nothing for now, it takes every frame, does not find the end, and leaves exactly what comes later |
| WorkerLoop.CollectDrains | Server-EChat/src/Server.cpp:190-245 | What a worker takes and what later ones take is what the stream yields |
| ClientWire.Client.OnReadyRead | Client-EChat/network/client.cpp:462-509 | The slot's two append loops make of `dataLen`, `buffer`, the socket's bytes and what was delivered exactly one decoder step |
| ClientWire.Client.Send | Client-EChat/network/client.cpp:394-411 | The bytes: the length counting the NUL, the text, the NUL; nothing for an empty text or without a connection |
| ClientWire.RunKeeps | Client-EChat/network/client.cpp:462-509 | For every fragmentation: the bytes that arrived are the encodings delivered, the header and part of the frame in progress, and what is unread; `dataLen` and `buffer` agree |
| ClientWire.ClientRefinesParser | Client-EChat/network/client.cpp:462-509 | What is delivered is always a prefix of the parser's frames, and the parser finds the others from where the decoder stands |
| ClientWire.OneEvent | Client-EChat/network/client.cpp:471-508 | An event delivers the next frame if and only if all of it is there |
| ClientWire.Progress | Client-EChat/network/client.cpp:471-508 | From any mid-frame state, k events deliver exactly the next k complete frames |
| ClientWire.AllDeliveredIff | Client-EChat/network/client.cpp:471-508 | All complete frames are delivered if and only if there were as many events as frames |
| ClientWire.NextConnection | Client-EChat/network/client.cpp:529-535 | After a reconnect the next stream is delivered as sent, with nothing left over, if and only if the old connection broke with `dataLen` 0, that is, not inside a frame's body, as nothing is reset |
| EndToEnd.TextsReachServer | Server-EChat/src/Server.cpp:229 | Over any lossless schedule every payload makes a string for the server, and these are the client's texts if and only if none contains a NUL |
| EndToEnd.FramesReachClient | Client-EChat/network/client.cpp:462-509 | Whatever the pieces and timing, enough events deliver all of the server's frames |
| EndToEnd.SendFile | Client-EChat/network/client.cpp:330-340 | The chunk loop puts on the wire the frames of the file's 1024-byte blocks, in order |
| EndToEnd.FileTextsAre | Client-EChat/network/client.cpp:330-340 | The i-th message carries bytes 1024 i to 1024 (i + 1) of the file, or to its end, up to a NUL, with their number and the particulars of the file |
| EndToEnd.FileTextsNumber | Client-EChat/network/client.cpp:330-340 | And there are as many as it takes |
| EndToEnd.RelayIsHandle | Server-EChat/src/Server.cpp:489-518 | 103 in the server's state machine: the same text to the receiver's descriptor, or the message written anew to no descriptor |
| EndToEnd.RelayKeepsAll | Server-EChat/src/Server.cpp:489-518 | 103 passes every block on unchanged and in order, whatever the registry becomes meanwhile, as long as the receiver keeps his descriptor |
| EndToEnd.SendAll | Server-EChat/src/Server.cpp:347-387 | Successive `Send` calls whose writes do not fail, however short, put the frames on the wire one after another |
| EndToEnd.AppendedText | Client-EChat/ui/uihome.cpp:871-882 | Appending the blocks of any file gives the old content and each block up to its first NUL, decoded and encoded |
| EndToEnd.RecodedIff | Client-EChat/network/client.cpp:330-340 | That is the file itself if and only if every block is NUL-free text in its own right, unless a block begins with a byte-order mark |
| EndToEnd.FileArrives | Client-EChat/network/client.cpp:330-340 | Any file, of any length, through both encoders, both decoders and the relay, over any fragmentation of both connections, arrives recoded block by block; a 7-bit file arrives as it was if and only if it is NUL-free |
| FdTool.OnlineFds.AddOnlineFd | Server-EChat/src/FdTool.cpp:48-52 | Insertion: the first descriptor of a user stays |
| FdTool.OnlineFds.DeleteOnlineFd | Server-EChat/src/FdTool.cpp:55-66 | The scan leaves exactly the entries of other descriptors |
| FdTool.OnlineFds.DeleteUser | Server-EChat/src/FdTool.cpp:68-71 | Exactly the user's entry goes |
| FdTool.OnlineFds.GetOnlineFd | Server-EChat/src/FdTool.cpp:74-80 | The descriptor registered, or -1 |
| Misrouting.OnlineAfter | Server-EChat/src/Server.cpp:420-471 | 99 and 101 add to the registry, 88 and the end of a stream remove from it, and no other request touches it |
| Misrouting.NoMisrouting | Server-EChat/src/Server.cpp:204-222 | In every reachable state of the server, with any requests, a descriptor found for a user is open and announced that user since it was accepted |
| Misrouting.FreshDescriptorIsNobodys | Server-EChat/src/FdTool.cpp:55-66 | A recycled descriptor number inherits no user, as the clean-up precedes the close |
| Misrouting.EverythingWentHome | Server-EChat/src/Server.cpp:204-222 | Over every run: every text and piece of a file the server ever sent went to a connection that at that very moment was open and had announced its recipient since it was accepted |
| IdPool.IdsAreIssuedOnce | Server-EChat/src/Server.cpp:472-488 | In every interleaving of any number of registrations: no id goes to two clients, pool and users together never change, and they are disjoint when no handler is between its last two steps |
| IdPool.StepKeeps | Server-EChat/src/DataBase.cpp:273-320 | Drawing, registering, removing and inserting a group each keep that invariant, although they take no common lock |
| IdPool.StepKeepsApartIff | Server-EChat/src/Server.cpp:771-785 | A step keeps users' and groups' numbers apart if and only if it registers no group's number and inserts no group with a user's |
| IdPool.RunKeepsApartIff | Server-EChat/src/Server.cpp:771-785 | A run of any number of registrations and new groups, interleaved step by step, does if and only if each of its steps does |
| IdPool.GroupAndUserMayCollide | Server-EChat/src/Server.cpp:771-785 | A concrete run that does not: a user gets a group's number, as 506 leaves it in the pool |
| IdPool.UserAndGroupMayCollide | Server-EChat/src/Server.cpp:771-785 | Another, in which the user gets the number between the group's draw and its insertion, and has it removed from the pool |
| IdPool.AloneIsHandleRegister | Server-EChat/src/Server.cpp:472-488 | The three steps in a row are the server's handler of 102, with the same reply |
| IdPool.GroupAloneIsHandleCreateGroup | Server-EChat/src/Server.cpp:771-785 | The two steps of 506 in a row are what its handler does to the numbers |
| Numbers.DisjointKeepsIff | Server-EChat/src/Server.cpp:471-488 | In the server's state machine each request keeps them apart, and groups off number 0, if and only if it meets a condition on the tables before it |
| Numbers.RunKeepsDisjoint | Server-EChat/src/Server.cpp:771-785 | So does every run of such requests |
| Session.ClientState.OnNewUserLogin | Client-EChat/network/client.cpp:43-58 | Asks to forget the last account unless there is none or it is the same one again |
| Session.ClientState.OnHandleReply | Client-EChat/network/client.cpp:417-459 | The replies to 88, 99 and 101 at the client's globals; after 101 the login window still owes its call |
| Session.ExactlyOneAccount | Server-EChat/src/Server.cpp:420-471 | After any run of logins, logouts, registrations, calls of the login window, losses and deliveries, on any number of connections, every button pressed when it is safe: with nothing in flight, the accounts registered for a connection are exactly its current one |
| Session.StepKeeps | Client-EChat/network/client.cpp:43-58 | Each safe event keeps an invariant of both channels, the client's globals, the calls owed and the registry |
| SessionRules.CanGoWrongIff | Client-EChat/ui/uihome.cpp:2343-2346 | In every state that safe presses lead to, for every button, with two accounts to log in with: if and only if the press is not safe, some continuation by the rules leaves the connection at rest, logged in, with another of its accounts registered or without its own |
| SessionRules.LogOutDuringLogin | Client-EChat/ui/uilogin.cpp:324-328 | Leaving the home window before the login is answered, in any such state: its account is logged in all the same, and exactly those that were going to be registered are |
| SessionRules.LogOutBeforeTheAnswer | Client-EChat/ui/uihome.cpp:2554-2562 | A state reached from the start in which leaving the home window early goes wrong |
| SessionRules.SecondLogIn | Client-EChat/ui/uilogin.cpp:324-328 | One in which leaving it is safe, but a second login then goes wrong |
| SessionRules.EarlyLogOut | Client-EChat/network/client.cpp:421-449 | One in which logging out before the switch is acknowledged goes wrong |
| SessionRules.RegistrationDuringLogIn | Client-EChat/ui/uilogin.cpp:505-509 | One in which confirming a registration goes wrong |
| Routing.ServeIsHandle | Server-EChat/src/Server.cpp:420-471 | 88, 99 and 101 of the session protocol are those of the server's state machine: registry, reply and nothing else |
| Routing.SessionIsServerRun | Server-EChat/src/Server.cpp:420-471 | Every run of the session protocol is a run of the server with the same registry |
| Routing.ServerRoutesToTheAccount | Server-EChat/src/Server.cpp:420-471 | Over a server run with any other requests in between: a quiet connection is found for the account logged in on it and for no other |
| Routing.ReconnectedIff | Client-EChat/network/client.cpp:538-549 | A client that comes back on another descriptor, among any other requests: its user is registered there if and only if the old descriptor is cleaned up before the new 99 is handled, otherwise nowhere |
| DataBase.DataBase.GetNewID | Server-EChat/src/DataBase.cpp:273-305 | Fails exactly when the variable passed in happens to hold a user's id or the pool is empty; otherwise draws an id of the pool |
| DataBase.DataBase.AddFriend | Server-EChat/src/DataBase.cpp:900-922 | Two insertions, stopping at the first that is refused |
| DataBase.DataBase.QueryGroupMember | Server-EChat/src/DataBase.cpp:1214-1258 | SQL NULL, JSON null and the empty array all read as null, anything else as its elements in order |
| DataBase.DataBase.QueryChatObjectIDList | Server-EChat/src/DataBase.cpp:2007-2038 | The other sides in table order, by the type of each row |
| Server.Server.InitGroupMap | Server-EChat/src/DataBase.cpp:45-105 | Every group's leader, then its members; entries already in the map stay |
| Server.Server.HandleChatting | Server-EChat/src/Server.cpp:653-749 | 503 to a friend pushes or stores one text, to a group fans out over the in-memory map or answers 504; a sender without a user row brings the server down after the chat object is recorded |
| Server.Server.ListChatObjects | Server-EChat/src/DataBase.cpp:1844-2004 | The user's chat objects in table order, unless some member of one of their groups has no user row, which brings the server down |
| Server.Server.SendToMembers | Server-EChat/src/Server.cpp:722-744 | The loop over the members equals the recursive fan-out of which `Delivery.FanOutEffect` is proved, for any list |
| Server.Server.HandleCreateGroup | Server-EChat/src/Server.cpp:771-840 | 506: group, leader and members recorded and notified, in two loops over the array; the id stays in the pool |
| Server.Server.HandleLeaveGroup | Server-EChat/src/Server.cpp:872-906 | 602 stores the array without the user, filtered element by element, and deletes his row; fails for a group without members |
| Server.Server.HandleDissolveGroup | Server-EChat/src/Server.cpp:907-949 | 603 replies, cleans up the requester and then each member in a loop, and deletes the group with all that cascades |
| Server.Server.ListOfflineMsgs | Server-EChat/src/Server.cpp:1272-1336 | The 812 reply, built up chat object by chat object, is the one of which `Effects.ListOfflineEffect` and module `Limits` speak |
| Server.Server.HandleRequest | Server-EChat/src/Server.cpp:420-1439 | The server survives if and only if no missing user row is read; then the request takes exactly the step of the state machine, keeps foreign keys and friendship, balances the account of every text, and keeps group records, group map, chat objects and numbers if and only if it meets their conditions |
| Server.Server.ThreadToCommunicate | Server-EChat/src/Server.cpp:190-245 | The worker loop over a socket: unless the server is brought down it takes frames until a call of `Unpack` yields none, and no fewer, and has found the end if and only if that call returned 0; what the server did is the run of the requests in the frames, the clean-up last, after which nobody is registered at the descriptor |
| Server.Server.Serve | Server-EChat/src/Server.cpp:388-420 | Requests of any workers one after another are a run of the state machine up to the first that brings the server down; with foreign keys, friendship, group records, group map, chat objects, numbers, the account of every text, and survival, each under its condition on the run |
| Survival.ListingIsSafe | Server-EChat/src/DataBase.cpp:1944-1972 | Where the two records of groups agree, 811 reads no missing row |
| Survival.BroughtDownIff | Server-EChat/src/DataBase.cpp:621-666 | A request brings the server down if and only if it reads the details of somebody who is no user: the sender of a 503, whoever logs in, and for 811 any friend, leader or member among the user's chat objects |
| Survival.CarefulRunsSurvive | Server-EChat/src/DataBase.cpp:621-666 | The server survives every run of careful requests in which texts and logins are those of users |
| Frames.Frame | Server-EChat/src/Server.cpp:420-1439 | Which tables each request leaves alone; none touches the group map |
| Effects.AnswerFriendEffect | Server-EChat/src/Server.cpp:523-598 | 501, granted between two users: each direction recorded once more, no other friendship changed, both told, then the answer; otherwise nothing, or the answer only |
| Effects.UnfriendEffect | Server-EChat/src/Server.cpp:841-871 | 601: the rows of this pair go and no others; one answer, or two to the same descriptor |
| Effects.AnswerTakesApplications | Server-EChat/src/DataBase.cpp:744-758 | How often every application stands in the table after 501 and 502 |
| Effects.ApplyEffect | Server-EChat/src/Server.cpp:1395-1439 | 901: which application is recorded for whom, the answer and the notice |
| Effects.JoinEffect | Server-EChat/src/Server.cpp:599-652 | 502: the applicant listed once more, at the end, and one row more if he is a user; nobody else, no other group; and every packet |
| Effects.LeaveEffect | Server-EChat/src/Server.cpp:872-906 | 602: the leaver off the list and out of the table, all others in their order, no other group; and the answer |
| Effects.FoundEffect | Server-EChat/src/Server.cpp:771-840 | 506: the new group as given, a row for the leader and for each time a user is listed, nothing else |
| Effects.FoundSends | Server-EChat/src/Server.cpp:771-840 | 506: 816, the answer and a notice for each member who is online, in order |
| Effects.DissolveEffect | Server-EChat/src/Server.cpp:907-949 | 603: all rows of this group go, none of another, and every member is told |
| Effects.ChattingChats | Server-EChat/src/Server.cpp:653-746 | 503: exactly which chat objects there are afterwards |
| Effects.ChattingSends | Server-EChat/src/Server.cpp:653-746 | 503: exactly which packets go out, in order |
| Effects.OpenChatEffect | Server-EChat/src/Server.cpp:755-770 | 505: the chat object is there, once, if the foreign keys allow it |
| Effects.CloseChatEffect | Server-EChat/src/Server.cpp:955-970 | 605: this chat object is not there, all others are |
| Effects.PurgeEffect | Server-EChat/src/Server.cpp:971-976 | 606: the answer (the rows are in `Delivery.OfflineAfter`) |
| Effects.ListChatsEffect | Server-EChat/src/Server.cpp:1262-1271 | 811: the packet holds the user's chat objects, each as often as it is there, in table order, and no others |
| Effects.ListOfflineEffect | Server-EChat/src/Server.cpp:1272-1336 | 812: every entry of the packet is one of the user's chats and says truly whose it is, a friend's with texts of that friend only or a group's with texts of that group only |
| Effects.DisconnectEffect | Server-EChat/src/Server.cpp:204-222 | The end of a stream sends nothing |
| Integrity.HandleKeepsReferential | Server-EChat/mysql-sql/structure.sql:35-36 | Every request keeps every foreign key |
| Integrity.RunKeepsReferential | Server-EChat/mysql-sql/structure.sql:55-57 | So does every run |
| Integrity.AddFriendIsMutual | Server-EChat/src/DataBase.cpp:900-922 | The second insertion is refused only if the first is, so symmetry survives failure |
| Integrity.RunKeepsMutual | Server-EChat/mysql-sql/structure.sql:74-75 | Friendship is symmetric, with multiplicity, after every run |
| Integrity.DeleteFriendIsMutual | Server-EChat/src/DataBase.cpp:925-947 | Unfriending leaves no row of the pair and keeps symmetry; that it leaves all others is `Effects.UnfriendEffect` |
| Integrity.DissolvedWithoutTrace | Server-EChat/src/Server.cpp:907-949 | After 603 no row of the groups, user groups, chat objects or pending texts mentions the group, by explicit deletes and cascade |
| Integrity.AnsweredIsGone | Server-EChat/src/Server.cpp:523-598 | Answering an application for friendship removes it and no other, whether or not it is granted |
| Integrity.AnsweredGroupIsGoneIff | Server-EChat/src/DataBase.cpp:744-758 | Answering an application to a group removes all that the applicant has with this reviewer, to whatever groups, if and only if it does not grant one for a group that is gone; all others stay |
| Agreement.JoinKeepsIff | Server-EChat/src/Server.cpp:599-652 | 502 keeps the two records of a group in agreement if and only if the applicant is registered; who joins is `Effects.JoinEffect` |
| Agreement.LeaveKeepsIff | Server-EChat/src/Server.cpp:872-906 | 602 does if and only if it is not the leader who leaves a group that has members |
| Agreement.FoundKeepsIff | Server-EChat/src/Server.cpp:771-840 | 506 does if and only if, with a new number, all members are registered or the leader is not, and with the number of a group, nobody named is registered |
| Agreement.DissolveKeeps | Server-EChat/src/Server.cpp:907-949 | 603 always does |
| Agreement.HandleKeepsIff | Server-EChat/src/DataBase.cpp:1297-1311 | Each request does if and only if it meets a condition on the tables before it |
| Agreement.RunKeepsAgreement | Server-EChat/src/DataBase.cpp:1350-1379 | Through every run of such requests, as multisets: users of a group = leader + parsed members |
| Agreement.StartupMatchesTable | Server-EChat/src/DataBase.cpp:45-105 | At startup the group map lists every user as often as the user-group table |
| Membership.MapStaysFreshIff | Server-EChat/src/Server.cpp:599-652 | The group map stays true if and only if the request changes no leader or member list: it admits nobody, founds no group, lets no member leave and dissolves none |
| Membership.GroupTextsReachTheTable | Server-EChat/src/Server.cpp:715-746 | After any run without such a change, a group text is pushed to or stored for each user as often as the table has him, and never for the sender |
| Delivery.FanOutEffect | Server-EChat/src/Server.cpp:715-746 | Each occurrence of a member other than the sender gets exactly one push or one row, the sender none, for any list |
| Delivery.OfflineAfter | Server-EChat/src/DataBase.cpp:1531-1614 | Rows leave only by 606 of their recipient or by 601 and 603 that name him or their group; 503 only adds rows behind, and all others stay in order |
| Delivery.HandleBalance | Server-EChat/src/Server.cpp:653-749 | Per request, text and recipient: offered = pushed + pending + removed + refused |
| Delivery.RunBalance | Server-EChat/src/Server.cpp:653-749 | The same account over every run |
| Delivery.NothingRefused | Server-EChat/mysql-sql/structure.sql:131-133 | Nothing is refused to a registered user in a group that exists |
| Delivery.TextsGoToTheirRecipient | Server-EChat/src/Server.cpp:696-735 | A text goes to the descriptor registered for its recipient at that moment and no other; nothing sent is taken back |
| Sync.CloseKeepsIff | Server-EChat/src/Server.cpp:955-970 | Closing a chat leaves every pending text its chat object if and only if none is pending for it |
| Sync.HandleCoversIff | Server-EChat/src/Server.cpp:653-749 | The only request that can break this is such a 605 |
| Sync.RunCovers | Server-EChat/src/Server.cpp:653-749 | Through every run without one, each pending text has its chat object |
| Sync.RepliesAreCompleteIff | Server-EChat/src/Server.cpp:1262-1336 | With at most 50 rows per sender and 100 per group: 811 is not empty if anything is pending, 812 returns only the user's own, and it returns every pending text if and only if each group text is looked up as its group's or its sender is among the user's chats |
| Sync.ClientGoesThrough | Client-EChat/ui/uihome.cpp:1504-1615 | If each text can be looked up, the packets that the server sends for 811 and 812 make the client ask for 812 and 606 if anything is pending, however much, and not delete if nothing is |
| Sync.ClientPurgesIff | Client-EChat/ui/uihome.cpp:1573-1611 | In any state with the foreign keys kept, the client asks for 606 if and only if some pending text is looked up by 812 |
| Sync.EveryCopyIsReturned | Server-EChat/src/Server.cpp:1272-1332 | Within the limits, with the texts told apart: every pending text is in the reply at least as often as it is pending, and no other text is |
| Sync.SyncLosesNothing | Server-EChat/src/Server.cpp:971-976 | From a state with separate numbers, over any run that keeps them so and closes no chat with texts pending, within the limits, and with anything between the 812 reply and 606: a text that 606 deletes was returned if and only if it was pending at 812, and if the user stays registered the reply has at least as many copies of each text as 606 deletes |
| Sync.NothingStoredMeanwhile | Server-EChat/src/Server.cpp:687-735 | While a user stays registered no text for him is stored, nor a further copy of one that is pending |
| Limits.CopiesReturned | Server-EChat/src/Server.cpp:1280-1332 | How often every pending row comes back in the 812 reply, exactly; a group text may come back twice, as the query for its sender finds it too |
| Limits.ReturnedExactly | Server-EChat/src/DataBase.cpp:1628-1646 | Whether it comes back: by its sender's query or by its group's |
| Limits.ReturnedIff | Server-EChat/src/DataBase.cpp:1628-1646 | A text is returned if and only if its sender is among the chats and fewer than 50 of his rows are older, or its group is, with a number of its own, and fewer than 100 of its rows are; 606 deletes it in any case |
| Limits.ReturnedBounds | Server-EChat/src/DataBase.cpp:1628-1646 | The same as bounds, whatever rows share a second |
| Tables.LimitCompleteIff | Server-EChat/src/DataBase.cpp:1628-1646 | A limited query is complete if and only if the rows fit the limit |

## Left out

- Handlers run one at a time, except in `IdPool`, where the steps of registrations and new groups interleave; the lock taken by each database method is not modelled beyond that.
- MySQL itself: every query or update succeeds unless a foreign key or unique index refuses it; rows with equal `send_time` come in insertion order, which MySQL does not promise; a table is a sequence of rows without its autoincrement ids, names, pictures and times.
- Server.Server.HandleRequest: the requests of the list above, 103 among them; what a server that has been brought down leaves of its last request is stated for 503 only.  The row that `ORDER BY RAND()` picks and the value of an uninitialised variable (102, 506, 901) are part of the request, with the precondition that the row is one of the pool's.
- Server.Server.ThreadToCommunicate: takes the JSON reader as a function from strings to requests, None standing for all other codes, which are passed over; a payload without a NUL, which the code reads beyond its end, counts as bringing the server down; close(2) and epoll are in `Misrouting` and left out, respectively.
- DataBase.DataBase.QueryOfflineMsg: the start index is 0, as in its only call, and nicknames and pictures of senders are left out.
- Files and images as chat messages (503): their rows in a group name no recipient, so all claims about pending rows are about texts.
- ServerWire.Connection.Unpack: a negative length counts as an allocation that fails, a length of zero as the end of the connection, as the code has them; other allocations succeed, and the function is split in its two loops.
- ServerWire.Connection.Send: takes no lock, so two threads writing to one descriptor could mix their frames; the model has one writer at a time, and a text is at most 2^31 - 5 bytes so that the code's int arithmetic does not overflow.
- Session.ExactlyOneAccount: an account is used on one connection only, and has a user row; every press of a button is one that `SessionRules.CanGoWrongIff` shows to be safe, which the windows do not see to; the call of newUserLogin that a confirmed registration makes is immediate, the login window's are events of their own; a lost connection is cleaned up before it is remade, under the same descriptor number, with `Routing.ReconnectedIff` for the other order.
- ClientWire.Client.OnReadyRead: the four bytes of a header are read in one call, as QTcpSocket does once they are there, and the slot is not re-entered.
- FdTool.OnlineFds.DeleteOnlineFd: scans the users one by one; the iterator that the source advances after erasing it is not modelled.
- EndToEnd.FileArrives: takes the JSON writer and reader as inverses on messages whose strings are valid text, the file's name among them, and of UTF-8 decoding and encoding that the result is valid text, that 7-bit text comes back, that no NUL appears, that a byte becomes three at most, and that only a byte-order mark at the beginning makes a text shorter; the receiver keeps one descriptor and gets nothing else on it.
- EndToEnd.SendAll: its loop stands for the workers that send one after another; writes that fail are in `ServerWire.Connection.Send`.
- Limits.ReturnedIff: is about a text whose `send_time` no other row of its sender or group shares; `ReturnedBounds` is not, but orders such rows by insertion, where MySQL may pick any order.
- Sync.SyncLosesNothing: assumes the limits of 50 and 100 of the state in which 812 is asked.
- ServerStream.ServerDecodesExactly: is about streams of whole frames; of a stream that ends inside a frame `ServerRefinesParser` says that a lossless schedule loses nothing.
- Profiles, pictures, nicknames, list queries (701 to 810, 815, 816), `grp_member_num`, groups' names: records copied with no property across steps.
- Passwords: 101 answers success to anybody, as its check is commented out.
- Epoll, thread creation, sleeps, `exit`, the double close by two workers at the end of a stream, and everything of the user interface.
