/**
 The server's request handlers as functions on its state: the tables, the registry of online
 users, the in-memory group map, and everything it has sent.
 */
module Handlers {
  import opened Wrappers
  import opened Tables
  import opened FdTool
  import opened Framing

  /** A chat text; `receiver` is a user or a group. */
  datatype Msg = Msg(sender: int, receiver: int, group: bool, text: int, sendTime: int)

  /** One chat object's share of an 812 reply. */
  datatype Entry = Entry(id: int, group: bool, rows: seq<Row>)

  datatype Packet =
    | Reply(code: int, state: bool)
    | NewId(id: int)                          // the 102 reply of a registration that went through
    | Notice(code: int)                       // 816, 902, 903 and the like
    | Text(recipient: int, msg: Msg)          // 503 pushed to a recipient
    | FileData(recipient: int, data: Bytes)   // 103 passed on
    | FileReturned(data: Bytes)               // 103 for a receiver who is offline
    | ChatList(chats: seq<Chat>)              // 811
    | MsgList(state: bool, entries: seq<Entry>)   // 812

  datatype Sent = Sent(fd: int, packet: Packet)

  datatype Srv = Srv(db: Db, online: Registry, groups: map<int, seq<int>>, sent: seq<Sent>)

  datatype Request =
    | Register(garbage: int, choice: int)                                              // 102
    | SendFile(receiver: int, sendState: bool, data: Bytes)                            // 103
    | AnswerFriend(usr: int, applicant: int, agree: bool)                              // 501
    | AnswerGroup(usr: int, applicant: int, agree: bool, grp: int)                     // 502
    | Chatting(msg: Msg)                                                               // 503
    | OpenChat(usr: int, chat: Chat)                                                   // 505
    | CreateGroup(usr: int, leader: int, members: MemberColumn, garbage: int, choice: int)  // 506
    | Unfriend(usr: int, frd: int)                                                     // 601
    | LeaveGroup(usr: int, grp: int)                                                   // 602
    | DissolveGroup(usr: int, grp: int)                                                // 603
    | CloseChat(usr: int, chat: Chat)                                                  // 605
    | PurgeOffline(usr: int)                                                           // 606
    | ListChats(usr: int)                                                              // 811
    | ListOffline(usr: int)                                                            // 812
    | ApplyFor(usr: int, group: bool, target: int, garbage: int)                        // 901
    | Identify(usr: int, login: bool)                                                  // 99, or 101 for a login
    | SwitchAccount(lastId: int)                                                       // 88
    | Disconnect                                                                       // end of stream

  // ---------------------------------------------------------------- sending

  function Send(s: Srv, fd: int, p: Packet): Srv {
    s.(sent := s.sent + [Sent(fd, p)])
  }

  /** Send to a user who is online. */
  function Push(s: Srv, usr: int, p: Packet): Srv {
    if FdOf(s.online, usr) > 0 then Send(s, FdOf(s.online, usr), p) else s
  }

  function PushAll(s: Srv, users: seq<int>, p: Packet): (t: Srv)
    ensures t == s.(sent := t.sent)
    decreases |users|
  {
    if users == [] then s else PushAll(Push(s, users[0], p), users[1..], p)
  }

  // ---------------------------------------------------------------- 102, 501, 502, 506: joining

  /** getNewID: nothing if the caller's uninitialised int happens to be a user, or the pool is
      empty; otherwise some id of the pool. */
  function NewIdOf(d: Db, garbage: int, choice: int): Option<int> {
    if garbage in d.users || choice !in d.pool then None else Some(choice)
  }

  function HandleRegister(s: Srv, fd: int, garbage: int, choice: int): Srv {
    match NewIdOf(s.db, garbage, choice)
    case None => Send(s, fd, Reply(102, false))
    case Some(id) =>
      if id in s.db.users then Send(s, fd, Reply(102, false))
      else Send(s.(db := s.db.(users := s.db.users + {id}, pool := s.db.pool - {id})), fd, NewId(id))
  }

  function HandleAnswerFriend(s: Srv, fd: int, usr: int, applicant: int, agree: bool): Srv {
    if agree then
      var (d, ok) := AddFriend(s.db, applicant, usr);
      var s1 := s.(db := d);
      if !ok then s1
      else
        var s2 := Push(Push(s1, applicant, Notice(903)), usr, Notice(903));
        Send(s2.(db := DeleteUserApply(s2.db, applicant, usr, false)), fd, Reply(501, true))
    else
      Send(s.(db := DeleteUserApply(s.db, applicant, usr, false)), fd, Reply(501, true))
  }

  function HandleAnswerGroup(s: Srv, fd: int, usr: int, applicant: int, agree: bool, grp: int): Srv {
    var s1 := Send(s, fd, Reply(502, true));
    if agree then
      if grp !in s1.db.groups then Send(s1, fd, Reply(502, true))
      else
        var ids := Members(s1.db.groups[grp].column) + [applicant];
        var d := AddUserInGroup(UpdateGroupMember(s1.db, grp, JsonArray(ids)), applicant, grp);
        var s2 := Push(s1.(db := d), applicant, Notice(903));
        s2.(db := DeleteUserApply(s2.db, applicant, usr, true))
    else
      s1.(db := DeleteUserApply(s1.db, applicant, usr, true))
  }

  function AddAllInGroup(d: Db, users: seq<int>, grp: int): (e: Db)
    ensures e == d.(userGroups := e.userGroups)
    decreases |users|
  {
    if users == [] then d else AddAllInGroup(AddUserInGroup(d, users[0], grp), users[1..], grp)
  }

  function HandleCreateGroup(s: Srv, fd: int, usr: int, leader: int, members: MemberColumn,
                             garbage: int, choice: int): Srv {
    match NewIdOf(s.db, garbage, choice)
    case None => Send(s, fd, Reply(506, false))
    case Some(id) =>
      var d := AddUserInGroup(AddGroup(s.db, leader, id, members), leader, id);
      var s1 := Send(s.(db := d), fd, Notice(816));
      var ids := Members(members);
      if ids == [] then s1
      else
        var s2 := s1.(db := AddAllInGroup(s1.db, ids, id));
        PushAll(Push(s2, usr, Reply(506, true)), ids, Notice(903))
  }

  /** 901: a group's application goes to its leader, or, without such a group, to whatever the
      reviewer variable holds. */
  function HandleApply(s: Srv, fd: int, usr: int, group: bool, target: int, garbage: int): Srv {
    var reviewer := if !group then target else if target in s.db.groups then s.db.groups[target].leader else garbage;
    match AddUserApply(s.db, if group then GroupApply(usr, reviewer, target) else FriendApply(usr, reviewer))
    case None => Push(Send(s, fd, Reply(901, false)), reviewer, Notice(902))
    case Some(d) => Push(Send(s.(db := d), fd, Reply(901, true)), reviewer, Notice(902))
  }

  // ---------------------------------------------------------------- 103, 503: files and texts

  /** The text as it came, to the receiver; the other branch answers to the same variable, which
      then holds no descriptor. */
  function HandleSendFile(s: Srv, receiver: int, sendState: bool, data: Bytes): Srv {
    var fd := FdOf(s.online, receiver);
    if fd > 0 then Send(s, fd, FileData(receiver, data))
    else if !sendState then Send(s, fd, FileReturned(data))
    else s
  }

  /** Deliver a group text to one member. */
  function Deliver(s: Srv, m: Msg, member: int): Srv {
    if member == m.sender then s
    else if FdOf(s.online, member) > 0 then Push(s, member, Text(member, m))
    else
      var d := AddOfflineMsg(s.db, Row(m.sender, member, Some(m.receiver), m.text, m.sendTime));
      s.(db := AddChatObject(d, GroupChat(member, m.receiver)))
  }

  function FanOut(s: Srv, m: Msg, members: seq<int>): (t: Srv)
    ensures t == s.(sent := t.sent, db := s.db.(chats := t.db.chats, offline := t.db.offline))
    decreases |members|
  {
    if members == [] then s else FanOut(Deliver(s, m, members[0]), m, members[1..])
  }

  /** The chat object that every text first makes sure of: the sender at the receiver's. */
  function FirstChat(m: Msg): Chat {
    if m.group then GroupChat(m.receiver, m.sender) else FriendChat(m.receiver, m.sender)
  }

  function HandleChatting(s: Srv, fd: int, m: Msg): Srv {
    var s1 := s.(db := AddChatObject(s.db, FirstChat(m)));
    if m.group then
      if m.receiver !in s1.groups then Send(s1, fd, Reply(504, false))
      else FanOut(s1, m, s1.groups[m.receiver])
    else
      var frdFd := FdOf(s1.online, m.receiver);
      if frdFd > 0 then Push(s1, m.receiver, Text(m.receiver, m))
      else
        var r := Row(m.sender, m.receiver, None, m.text, m.sendTime);
        if RowAllowed(s1.db, r)
        then s1.(db := AddChatObject(AddOfflineMsg(s1.db, r), FriendChat(frdFd, m.sender)))
        else s1
  }

  // ---------------------------------------------------------------- 601, 602, 603: leaving

  function HandleUnfriend(s: Srv, fd: int, usr: int, frd: int): Srv {
    var d := DeleteOfflineMsg(DeleteOfflineMsg(DeleteFriend(s.db, usr, frd), usr), frd);
    var s1 := Send(s.(db := d), fd, Reply(601, true));
    if FdOf(s1.online, frd) > 0 then Send(s1, fd, Reply(601, true)) else s1
  }

  function HandleLeaveGroup(s: Srv, fd: int, usr: int, grp: int): Srv {
    if grp !in s.db.groups || Members(s.db.groups[grp].column) == [] then Send(s, fd, Reply(602, false))
    else
      var left := Select(Members(s.db.groups[grp].column), (u: int) => u != usr);
      Send(s.(db := DeleteUserInGroup(UpdateGroupMember(s.db, grp, Column(left)), usr, grp)), fd, Reply(602, true))
  }

  function Dismiss(s: Srv, members: seq<int>, grp: int): (t: Srv)
    ensures t == s.(sent := t.sent, db := s.db.(userGroups := t.db.userGroups, offline := t.db.offline))
    decreases |members|
  {
    if members == [] then s
    else
      var s1 := Push(s, members[0], Reply(603, true));
      Dismiss(s1.(db := DeleteOfflineMsg(DeleteUserInGroup(s1.db, members[0], grp), members[0])), members[1..], grp)
  }

  function HandleDissolveGroup(s: Srv, fd: int, usr: int, grp: int): Srv {
    var s1 := Send(s, fd, Reply(603, true));
    var s2 := s1.(db := DeleteOfflineMsg(DeleteUserInGroup(s1.db, usr, grp), usr));
    var members := if grp in s2.db.groups then Members(s2.db.groups[grp].column) else [];
    var s3 := Dismiss(s2, members, grp);
    s3.(db := DeleteGroup(s3.db, grp))
  }

  // ---------------------------------------------------------------- 812: fetching what is pending

  function EntryFor(d: Db, usr: int, id: int): seq<Entry> {
    if id in d.users then
      var rows := QueryFriendRows(d, id, usr);
      if rows == [] then [] else [Entry(id, false, rows)]
    else if id in d.groups then
      var rows := QueryGroupRows(d, id, usr);
      if rows == [] then [] else [Entry(id, true, rows)]
    else []
  }

  function Entries(d: Db, usr: int, ids: seq<int>): (es: seq<Entry>)
    ensures forall id, e | id in ids && e in EntryFor(d, usr, id) :: e in es
    ensures forall e | e in es :: e.rows != []
    ensures forall e, r | e in es && r in e.rows :: r in d.offline && r.frd == usr
  {
    if ids == [] then [] else EntryFor(d, usr, ids[0]) + Entries(d, usr, ids[1..])
  }

  function OfflineReply(d: Db, usr: int): Packet {
    var ids := ChatIds(d.chats, usr);
    if ids == [] then MsgList(false, []) else MsgList(true, Entries(d, usr, ids))
  }

  // ---------------------------------------------------------------- everything

  /** What initGroupMap fills the group map with at startup. */
  function StartupGroups(d: Db): map<int, seq<int>> {
    map g | g in d.groups :: [d.groups[g].leader] + Members(d.groups[g].column)
  }

  /** Looking up the details of somebody who has no user row dereferences a null row, and the
      server is gone: the sender of a 503, whoever logs in by 101, and for 811 every member of
      every group among the user's chat objects. */
  predicate Acceptable(d: Db, r: Request) {
    match r
    case Chatting(m) => m.sender in d.users
    case Identify(usr, login) => login ==> usr in d.users
    case ListChats(usr) => forall c | c in d.chats && c.usr == usr :: Shown(d, c)
    case _ => true
  }

  predicate Shown(d: Db, c: Chat) {
    c.GroupChat? && c.grp in d.groups ==> forall u | u in Members(d.groups[c.grp].column) :: u in d.users
  }

  /** The choice of a request that draws an id is a row of the pool, if there is one. */
  predicate Possible(d: Db, r: Request) {
    r.Register? || r.CreateGroup? ==> d.pool == {} || r.choice in d.pool
  }

  function Handle(s: Srv, fd: int, r: Request): Srv {
    match r
    case Register(garbage, choice) => HandleRegister(s, fd, garbage, choice)
    case SendFile(receiver, sendState, data) => HandleSendFile(s, receiver, sendState, data)
    case AnswerFriend(usr, applicant, agree) => HandleAnswerFriend(s, fd, usr, applicant, agree)
    case AnswerGroup(usr, applicant, agree, grp) => HandleAnswerGroup(s, fd, usr, applicant, agree, grp)
    case Chatting(m) => HandleChatting(s, fd, m)
    case OpenChat(usr, chat) => Send(s.(db := AddChatObject(s.db, chat.(usr := usr))), fd, Reply(505, true))
    case CreateGroup(usr, leader, members, garbage, choice) =>
      HandleCreateGroup(s, fd, usr, leader, members, garbage, choice)
    case Unfriend(usr, frd) => HandleUnfriend(s, fd, usr, frd)
    case LeaveGroup(usr, grp) => HandleLeaveGroup(s, fd, usr, grp)
    case DissolveGroup(usr, grp) => HandleDissolveGroup(s, fd, usr, grp)
    case CloseChat(usr, chat) => Send(s.(db := DeleteChatObject(s.db, chat.(usr := usr))), fd, Reply(605, true))
    case PurgeOffline(usr) => Send(s.(db := DeleteOfflineMsg(s.db, usr)), fd, Reply(606, true))
    case ListChats(usr) => Send(s, fd, ChatList(Select(s.db.chats, (c: Chat) => c.usr == usr)))
    case ListOffline(usr) => Send(s, fd, OfflineReply(s.db, usr))
    case ApplyFor(usr, group, target, garbage) => HandleApply(s, fd, usr, group, target, garbage)
    case Identify(usr, login) =>
      Send(s.(online := Added(s.online, usr, fd)), fd, Reply(if login then 101 else 99, true))
    case SwitchAccount(lastId) => Send(s.(online := WithoutUser(s.online, lastId)), fd, Reply(88, true))
    case Disconnect => s.(online := WithoutFd(s.online, fd))
  }

  /** A run: requests and the descriptors they come in on. */
  datatype Call = Call(fd: int, request: Request)

  /** The server lives through the run. */
  predicate Legal(s: Srv, calls: seq<Call>)
    decreases |calls|
  {
    calls == [] || (Acceptable(s.db, calls[0].request) && Legal(Handle(s, calls[0].fd, calls[0].request), calls[1..]))
  }

  predicate AllPossible(s: Srv, calls: seq<Call>)
    decreases |calls|
  {
    calls == [] ||
    (Possible(s.db, calls[0].request) && AllPossible(Handle(s, calls[0].fd, calls[0].request), calls[1..]))
  }

  function Run(s: Srv, calls: seq<Call>): Srv
    decreases |calls|
  {
    if calls == [] then s else Run(Handle(s, calls[0].fd, calls[0].request), calls[1..])
  }
}
