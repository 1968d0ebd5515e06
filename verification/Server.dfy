/**
 The server itself: a handler per request code, with the loops and the order of statements and
 replies of the source.  Each is held to the function of the whole state that module Handlers
 gives, so that what is proved of those functions is proved of these methods.
 */
module Server {
  import opened Wrappers
  import opened Tables
  import opened Handlers
  import opened FdTool
  import opened DataBase
  import opened Framing
  import opened Integrity
  import opened Agreement
  import opened Membership
  import opened Delivery
  import opened Numbers
  import opened Sync
  import opened Survival
  import opened WorkerLoop
  import ServerWire
  import ServerStream

  // ---------------------------------------------------------------- one turn of a loop

  lemma FanOutFrom(s: Srv, m: Msg, members: seq<int>, i: nat)
    requires i < |members|
    ensures FanOut(s, m, members[i..]) == FanOut(Deliver(s, m, members[i]), m, members[i + 1..])
  {
    assert members[i..][1..] == members[i + 1..];
  }

  lemma DismissFrom(s: Srv, members: seq<int>, g: int, i: nat)
    requires i < |members|
    ensures var s1 := Push(s, members[i], Reply(603, true));
            var d := Tables.DeleteOfflineMsg(Tables.DeleteUserInGroup(s1.db, members[i], g), members[i]);
            Dismiss(s, members[i..], g) == Dismiss(s1.(db := d), members[i + 1..], g)
  {
    assert members[i..][1..] == members[i + 1..];
  }

  lemma PushAllFrom(s: Srv, users: seq<int>, p: Packet, i: nat)
    requires i < |users|
    ensures PushAll(s, users[i..], p) == PushAll(Push(s, users[i], p), users[i + 1..], p)
  {
    assert users[i..][1..] == users[i + 1..];
  }

  lemma AddAllFrom(d: Db, users: seq<int>, g: int, i: nat)
    requires i < |users|
    ensures AddAllInGroup(d, users[i..], g) == AddAllInGroup(Tables.AddUserInGroup(d, users[i], g), users[i + 1..], g)
  {
    assert users[i..][1..] == users[i + 1..];
  }

  lemma EntriesFrom(d: Db, usr: int, ids: seq<int>, i: nat)
    requires i < |ids|
    ensures Entries(d, usr, ids[i..]) == EntryFor(d, usr, ids[i]) + Entries(d, usr, ids[i + 1..])
  {
    assert ids[i..][1..] == ids[i + 1..];
  }

  lemma SelectFrom<T(!new)>(rows: seq<T>, keep: T -> bool, i: nat)
    requires i <= |rows|
    ensures i == |rows| ==> Select(rows[i..], keep) == []
    ensures i < |rows| && keep(rows[i]) ==> Select(rows[i..], keep) == [rows[i]] + Select(rows[i + 1..], keep)
    ensures i < |rows| && !keep(rows[i]) ==> Select(rows[i..], keep) == Select(rows[i + 1..], keep)
  {
    if i < |rows| {
      assert rows[i..][1..] == rows[i + 1..];
    }
  }

  lemma FanOutToNobody(s: Srv, m: Msg, none: seq<int>)
    requires none == []
    ensures FanOut(s, m, none) == s
  {
  }

  lemma DismissNobody(s: Srv, none: seq<int>, g: int)
    requires none == []
    ensures Dismiss(s, none, g) == s
  {
  }

  lemma PushToNobody(s: Srv, none: seq<int>, p: Packet)
    requires none == []
    ensures PushAll(s, none, p) == s
  {
  }

  lemma AddNobody(d: Db, none: seq<int>, g: int)
    requires none == []
    ensures AddAllInGroup(d, none, g) == d
  {
  }

  lemma NoEntries(d: Db, usr: int, none: seq<int>)
    requires none == []
    ensures Entries(d, usr, none) == []
  {
  }

  class Server {
    const db: DataBase
    const registry: OnlineFds
    var groups: map<int, seq<int>>
    var sent: seq<Sent>

    ghost function View(): Srv
      reads this, db, registry
    {
      Srv(db.tables, registry.onlineFds, groups, sent)
    }

    constructor (d: Db)
      ensures fresh(db) && fresh(registry)
      ensures View() == Srv(d, map[], map[], [])
    {
      db := new DataBase(d);
      registry := new OnlineFds();
      groups := map[];
      sent := [];
    }

    method Send(fd: int, p: Packet)
      modifies this
      ensures View() == Handlers.Send(old(View()), fd, p)
    {
      sent := sent + [Sent(fd, p)];
    }

    /** The look-up and test before most replies. */
    method SendTo(usrId: int, p: Packet)
      modifies this
      ensures View() == Push(old(View()), usrId, p)
    {
      var fd := registry.GetOnlineFd(usrId);
      if fd > 0 {
        Send(fd, p);
      }
    }

    /** Some row of the pool, if there is one. */
    method Draw() returns (choice: int)
      ensures db.tables.pool == {} || choice in db.tables.pool
    {
      choice := 0;
      if id :| id in db.tables.pool {
        choice := id;
      } else {
        assert forall id :: id !in db.tables.pool;
        assert db.tables.pool == {};
      }
    }

    // ---------------------------------------------------------------- startup

    /** A group that is in the map already keeps its entry. */
    method InitGroupMap()
      modifies this
      ensures View() == old(View()).(groups := groups)
      ensures groups == StartupGroups(db.tables) + old(groups)
      ensures forall g | g in db.tables.groups && g !in old(groups) ::
                groups[g] == [db.tables.groups[g].leader] + Members(db.tables.groups[g].column)
    {
      var todo := db.tables.groups.Keys;
      while exists g :: g in todo
        invariant todo <= db.tables.groups.Keys
        invariant sent == old(sent)
        invariant groups.Keys == old(groups).Keys + (db.tables.groups.Keys - todo)
        invariant forall g | g in old(groups) :: g in groups && groups[g] == old(groups)[g]
        invariant forall g | g in groups && g !in old(groups) ::
            g in db.tables.groups && groups[g] == StartupGroups(db.tables)[g]
        decreases todo
      {
        var grpId :| grpId in todo;
        todo := todo - {grpId};
        var member := StartupMembers(grpId);
        if grpId !in groups {
          groups := groups[grpId := member];
        }
      }
      ghost var filled := StartupGroups(db.tables) + old(groups);
      assert forall g :: g !in todo;
      assert groups.Keys == filled.Keys;
      assert forall g | g in filled :: filled[g] == groups[g];
    }

    /** The leader, then the members of the JSON column. */
    method StartupMembers(grpId: int) returns (member: seq<int>)
      requires grpId in db.tables.groups
      ensures member == StartupGroups(db.tables)[grpId]
    {
      ghost var leader := db.tables.groups[grpId].leader;
      member := [db.tables.groups[grpId].leader];
      var ok, column := db.QueryGroupMember(grpId);
      if ok && column.JsonArray? {
        var memArr := column.ids;
        for i := 0 to |memArr|
          invariant member == [leader] + memArr[..i]
        {
          member := member + [memArr[i]];
        }
        assert memArr[..|memArr|] == memArr;
      }
    }

    // ---------------------------------------------------------------- 88, 99, 101, end of stream

    method HandleIdentify(fd: int, usr: int, login: bool) returns (alive: bool)
      modifies this, registry
      ensures alive <==> Acceptable(db.tables, Identify(usr, login))
      ensures alive ==> View() == Handle(old(View()), fd, Identify(usr, login))
    {
      registry.AddOnlineFd(usr, fd);
      if login {
        alive := db.QueryUserInfo(usr);
        if !alive {
          return;
        }
      }
      Send(fd, Reply(if login then 101 else 99, true));
      return true;
    }

    method HandleSwitchAccount(fd: int, lastId: int)
      modifies this, registry
      ensures View() == Handle(old(View()), fd, SwitchAccount(lastId))
    {
      registry.DeleteUser(lastId);
      Send(fd, Reply(88, true));
    }

    method HandleDisconnect(fd: int)
      modifies registry
      ensures View() == Handle(old(View()), fd, Disconnect)
    {
      registry.DeleteOnlineFd(fd);
    }

    // ---------------------------------------------------------------- 102, 501, 502, 506

    method HandleRegister(fd: int, garbage: int, choice: int)
      requires Possible(db.tables, Register(garbage, choice))
      modifies this, db
      ensures View() == Handlers.HandleRegister(old(View()), fd, garbage, choice)
    {
      var got, newId := db.GetNewID(garbage, choice);
      if !got {
        Send(fd, Reply(102, false));
        return;
      }
      var registered := db.Register(newId);
      if !registered {
        assert db.tables == old(db.tables);
        Send(fd, Reply(102, false));
        return;
      }
      db.DeleteNewID(newId);
      Send(fd, NewId(newId));
    }

    method HandleAnswerFriend(fd: int, usr: int, applicant: int, agree: bool)
      modifies this, db
      ensures View() == Handlers.HandleAnswerFriend(old(View()), fd, usr, applicant, agree)
    {
      hide Tables.AddFriend, Tables.DeleteUserApply;
      if agree {
        var ok := db.AddFriend(applicant, usr);
        if !ok {
          return;
        }
        SendTo(applicant, Notice(903));
        SendTo(usr, Notice(903));
        db.DeleteUserApply(applicant, usr, false);
      } else {
        db.DeleteUserApply(applicant, usr, false);
      }
      Send(fd, Reply(501, true));
    }

    method HandleAnswerGroup(fd: int, usr: int, applicant: int, agree: bool, grpId: int)
      modifies this, db
      ensures View() == Handlers.HandleAnswerGroup(old(View()), fd, usr, applicant, agree, grpId)
    {
      hide Tables.UpdateGroupMember, Tables.AddUserInGroup, Tables.DeleteUserApply;
      Send(fd, Reply(502, true));
      if agree {
        var ok, members := db.QueryGroupMember(grpId);
        if !ok {
          Send(fd, Reply(502, true));
          return;
        }
        db.UpdateGroupMember(grpId, JsonArray(Members(members) + [applicant]));
        db.AddUserInGroup(applicant, grpId);
        SendTo(applicant, Notice(903));
        db.DeleteUserApply(applicant, usr, true);
      } else {
        db.DeleteUserApply(applicant, usr, true);
      }
    }

    method HandleCreateGroup(fd: int, usr: int, leader: int, members: MemberColumn, garbage: int, choice: int)
      requires Possible(db.tables, CreateGroup(usr, leader, members, garbage, choice))
      modifies this, db
      ensures View() == Handlers.HandleCreateGroup(old(View()), fd, usr, leader, members, garbage, choice)
    {
      hide Tables.AddGroup, Tables.AddUserInGroup, AddAllInGroup, PushAll, Push;
      var got, newId := db.GetNewID(garbage, choice);
      if !got {
        Send(fd, Reply(506, false));
        return;
      }
      db.AddGroup(leader, newId, members);
      db.AddUserInGroup(leader, newId);
      Send(fd, Notice(816));
      var memArr := Members(members);
      var counts := |memArr|;
      if counts > 0 {
        AddMembers(memArr, newId);
        SendTo(usr, Reply(506, true));
        SendToAll(memArr, Notice(903));
      }
    }

    method AddMembers(memArr: seq<int>, newId: int)
      modifies db
      ensures View() == old(View()).(db := AddAllInGroup(old(db.tables), memArr, newId))
    {
      hide AddAllInGroup;
      assert memArr[0..] == memArr;
      for i := 0 to |memArr|
        invariant View() == old(View()).(db := db.tables)
        invariant AddAllInGroup(db.tables, memArr[i..], newId) == AddAllInGroup(old(db.tables), memArr, newId)
      {
        AddAllFrom(db.tables, memArr, newId, i);
        db.AddUserInGroup(memArr[i], newId);
      }
      AddNobody(db.tables, memArr[|memArr|..], newId);
    }

    method SendToAll(users: seq<int>, p: Packet)
      modifies this
      ensures View() == PushAll(old(View()), users, p)
    {
      hide PushAll, Push;
      assert users[0..] == users;
      for i := 0 to |users|
        invariant PushAll(View(), users[i..], p) == PushAll(old(View()), users, p)
      {
        PushAllFrom(View(), users, p, i);
        SendTo(users[i], p);
      }
      PushToNobody(View(), users[|users|..], p);
    }

    // ---------------------------------------------------------------- 503

    method HandleChatting(fd: int, m: Msg) returns (alive: bool)
      modifies this, db
      ensures alive <==> Acceptable(old(db.tables), Chatting(m))
      ensures alive ==> View() == Handlers.HandleChatting(old(View()), fd, m)
      ensures !alive ==> View() == old(View()).(db := Tables.AddChatObject(old(db.tables), FirstChat(m)))
    {
      hide Tables.AddChatObject, Tables.AddOfflineMsg, FanOut;
      db.AddChatObject(FirstChat(m));
      SameUsers(old(db.tables), FirstChat(m));
      alive := db.QueryUserInfo(m.sender);
      if !alive {
        return;
      }
      if !m.group {
        var frdFd := registry.GetOnlineFd(m.receiver);
        if frdFd > 0 {
          Send(frdFd, Text(m.receiver, m));
        } else {
          var stored := db.AddOfflineMsg(Row(m.sender, m.receiver, None, m.text, m.sendTime));
          if stored {
            db.AddChatObject(FriendChat(frdFd, m.sender));
          } else {
            StoresNothing(old(db.tables), m);
          }
        }
      } else {
        if m.receiver !in groups {
          Send(fd, Reply(504, false));
          return;
        }
        SendToMembers(m, groups[m.receiver]);
      }
    }

    lemma SameUsers(d: Db, c: Chat)
      ensures Tables.AddChatObject(d, c).users == d.users
    {
    }

    lemma StoresNothing(d: Db, m: Msg)
      ensures var d1, r := Tables.AddChatObject(d, FirstChat(m)), Row(m.sender, m.receiver, None, m.text, m.sendTime);
              !RowAllowed(d1, r) ==> Tables.AddOfflineMsg(d1, r) == d1
    {
    }

    method SendToMembers(m: Msg, members: seq<int>)
      modifies this, db
      ensures View() == FanOut(old(View()), m, members)
    {
      hide FanOut, Tables.AddChatObject, Tables.AddOfflineMsg;
      assert members[0..] == members;
      var memCount := |members|;
      for i := 0 to memCount
        invariant FanOut(View(), m, members[i..]) == FanOut(old(View()), m, members)
      {
        FanOutFrom(View(), m, members, i);
        var memberId := members[i];
        if memberId == m.sender {
          continue;
        }
        var frdFd := registry.GetOnlineFd(memberId);
        if frdFd > 0 {
          Send(frdFd, Text(memberId, m));
        } else {
          var _ := db.AddOfflineMsg(Row(m.sender, memberId, Some(m.receiver), m.text, m.sendTime));
          db.AddChatObject(GroupChat(memberId, m.receiver));
        }
      }
      FanOutToNobody(View(), m, members[memCount..]);
    }

    // ---------------------------------------------------------------- 601, 602, 603

    method HandleUnfriend(fd: int, usr: int, frd: int)
      modifies this, db
      ensures View() == Handlers.HandleUnfriend(old(View()), fd, usr, frd)
    {
      hide Tables.DeleteFriend, Tables.DeleteOfflineMsg;
      db.DeleteFriend(usr, frd);
      db.DeleteOfflineMsg(usr);
      db.DeleteOfflineMsg(frd);
      Send(fd, Reply(601, true));
      var frdFd := registry.GetOnlineFd(frd);
      if frdFd > 0 {
        Send(fd, Reply(601, true));
      }
    }

    method HandleLeaveGroup(fd: int, usr: int, grpId: int)
      modifies this, db
      ensures View() == Handlers.HandleLeaveGroup(old(View()), fd, usr, grpId)
    {
      hide Tables.UpdateGroupMember, Tables.DeleteUserInGroup;
      var ok, column := db.QueryGroupMember(grpId);
      if !ok || Members(column) == [] {
        Send(fd, Reply(602, false));
        return;
      }
      var memArr := Members(column);
      var newArr := Without(memArr, usr);
      db.UpdateGroupMember(grpId, Column(newArr));
      db.DeleteUserInGroup(usr, grpId);
      Send(fd, Reply(602, true));
    }

    method HandleDissolveGroup(fd: int, usr: int, grpId: int)
      modifies this, db
      ensures View() == Handlers.HandleDissolveGroup(old(View()), fd, usr, grpId)
    {
      hide Tables.DeleteUserInGroup, Tables.DeleteOfflineMsg, Tables.DeleteGroup, Dismiss;
      Send(fd, Reply(603, true));
      db.DeleteUserInGroup(usr, grpId);
      db.DeleteOfflineMsg(usr);
      var memArr := [];
      var ok, column := db.QueryGroupMember(grpId);
      if ok {
        memArr := Members(column);
      }
      DismissMembers(memArr, grpId);
      db.DeleteGroup(grpId);
    }

    method DismissMembers(memArr: seq<int>, grpId: int)
      modifies this, db
      ensures View() == Dismiss(old(View()), memArr, grpId)
    {
      hide Dismiss, Push, Tables.DeleteUserInGroup, Tables.DeleteOfflineMsg;
      assert memArr[0..] == memArr;
      var counts := |memArr|;
      for i := 0 to counts
        invariant Dismiss(View(), memArr[i..], grpId) == Dismiss(old(View()), memArr, grpId)
      {
        DismissFrom(View(), memArr, grpId, i);
        var memId := memArr[i];
        SendTo(memId, Reply(603, true));
        db.DeleteUserInGroup(memId, grpId);
        db.DeleteOfflineMsg(memId);
      }
      DismissNobody(View(), memArr[counts..], grpId);
    }

    // ---------------------------------------------------------------- 103

    method HandleSendFile(receiver: int, sendState: bool, data: Bytes)
      modifies this
      ensures View() == Handlers.HandleSendFile(old(View()), receiver, sendState, data)
    {
      var fd := registry.GetOnlineFd(receiver);
      if fd > 0 {
        Send(fd, FileData(receiver, data));
      } else {
        if !sendState {
          Send(fd, FileReturned(data));
        }
      }
    }

    // ---------------------------------------------------------------- 811, 812

    /** The details of every member of every group are read along with the chat objects. */
    method ListChatObjects(usr: int) returns (alive: bool, chatObjects: seq<Chat>)
      ensures alive <==> Acceptable(db.tables, ListChats(usr))
      ensures alive ==> chatObjects == Select(db.tables.chats, (c: Chat) => c.usr == usr)
    {
      hide Select;
      var chats := db.tables.chats;
      ghost var mine := (c: Chat) => c.usr == usr;
      chatObjects := [];
      assert chats[0..] == chats;
      for i := 0 to |chats|
        invariant chatObjects + Select(chats[i..], mine) == Select(chats, mine)
        invariant forall c | c in chats[..i] && c.usr == usr :: Shown(db.tables, c)
      {
        SelectFrom(chats, mine, i);
        var c := chats[i];
        if c.usr != usr {
          continue;
        }
        if c.GroupChat? {
          var ok, column := db.QueryGroupMember(c.grp);
          if ok {
            alive := AllHaveDetails(Members(column));
            if !alive {
              assert !Shown(db.tables, c) && c in chats;
              return;
            }
          }
        }
        assert chatObjects + ([c] + Select(chats[i + 1..], mine)) == (chatObjects + [c]) + Select(chats[i + 1..], mine);
        chatObjects := chatObjects + [c];
      }
      SelectFrom(chats, mine, |chats|);
      assert chats[..|chats|] == chats;
      return true, chatObjects;
    }

    method AllHaveDetails(users: seq<int>) returns (read: bool)
      ensures read <==> forall u | u in users :: u in db.tables.users
    {
      for i := 0 to |users|
        invariant forall u | u in users[..i] :: u in db.tables.users
      {
        read := db.QueryUserInfo(users[i]);
        if !read {
          assert users[i] in users;
          return;
        }
      }
      return true;
    }

    /** The reply is built up chat object by chat object. */
    method ListOfflineMsgs(usr: int) returns (reply: Packet)
      ensures reply == OfflineReply(db.tables, usr)
    {
      hide Entries, ChatIds, QueryFriendRows, Limit, ByTime, In;
      var ids := db.QueryChatObjectIDList(usr);
      if ids == [] {
        return MsgList(false, []);
      }
      var chatObjMsgArr := [];
      assert ids[0..] == ids;
      for i := 0 to |ids|
        invariant chatObjMsgArr + Entries(db.tables, usr, ids[i..]) == Entries(db.tables, usr, ids)
      {
        EntriesFrom(db.tables, usr, ids, i);
        ghost var rest := Entries(db.tables, usr, ids[i + 1..]);
        ghost var before := chatObjMsgArr;
        var chatId := ids[i];
        var isUser := db.QueryUser(chatId);
        if isUser {
          var some, chatMsg := db.QueryOfflineMsg(chatId, usr, 0);
          if some {
            chatObjMsgArr := chatObjMsgArr + [Entry(chatId, false, chatMsg)];
          }
        } else {
          var isGroup := db.QueryGroup(chatId);
          if isGroup {
            var some, chatMsg := db.QueryOfflineMsg(0, usr, chatId);
            if some {
              chatObjMsgArr := chatObjMsgArr + [Entry(chatId, true, chatMsg)];
            }
          }
        }
        assert chatObjMsgArr == before + EntryFor(db.tables, usr, chatId);
        assert before + (EntryFor(db.tables, usr, chatId) + rest) == chatObjMsgArr + rest;
      }
      NoEntries(db.tables, usr, ids[|ids|..]);
      assert chatObjMsgArr + [] == chatObjMsgArr;
      return MsgList(true, chatObjMsgArr);
    }

    // ---------------------------------------------------------------- 901

    method HandleApply(fd: int, usr: int, group: bool, target: int, garbage: int)
      modifies this, db
      ensures View() == Handlers.HandleApply(old(View()), fd, usr, group, target, garbage)
    {
      var reviewer := garbage;
      var ok;
      if group {
        reviewer := db.QueryGroupLeader(target, reviewer);
        ok := db.AddUserApply(GroupApply(usr, reviewer, target));
      } else {
        reviewer := target;
        ok := db.AddUserApply(FriendApply(usr, reviewer));
      }
      Send(fd, Reply(901, ok));
      SendTo(reviewer, Notice(902));
    }

    // ---------------------------------------------------------------- the dispatcher

    lemma MostAreAcceptable(d: Db, r: Request)
      ensures !r.Chatting? && !r.Identify? && !r.ListChats? ==> Acceptable(d, r)
    {
    }

    method Dispatch(fd: int, r: Request) returns (alive: bool)
      requires Possible(db.tables, r)
      modifies this, db, registry
      ensures alive <==> Acceptable(old(db.tables), r)
      ensures alive ==> View() == Handle(old(View()), fd, r)
    {
      hide Handlers.HandleRegister, Handlers.HandleAnswerFriend, Handlers.HandleAnswerGroup,
        Handlers.HandleChatting, Handlers.HandleCreateGroup, Handlers.HandleUnfriend, Handlers.HandleLeaveGroup,
        Handlers.HandleDissolveGroup, Handlers.HandleApply, Handlers.HandleSendFile, Acceptable, OfflineReply,
        Tables.AddChatObject, Tables.DeleteChatObject, Tables.DeleteOfflineMsg, Select;
      MostAreAcceptable(db.tables, r);
      alive := true;
      match r {
        case Register(garbage, choice) => HandleRegister(fd, garbage, choice);
        case SendFile(receiver, sendState, data) => HandleSendFile(receiver, sendState, data);
        case AnswerFriend(usr, applicant, agree) => HandleAnswerFriend(fd, usr, applicant, agree);
        case AnswerGroup(usr, applicant, agree, grp) => HandleAnswerGroup(fd, usr, applicant, agree, grp);
        case Chatting(m) => alive := HandleChatting(fd, m);
        case OpenChat(usr, chat) =>
          db.AddChatObject(chat.(usr := usr));
          Send(fd, Reply(505, true));
        case CreateGroup(usr, leader, members, garbage, choice) =>
          HandleCreateGroup(fd, usr, leader, members, garbage, choice);
        case Unfriend(usr, frd) => HandleUnfriend(fd, usr, frd);
        case LeaveGroup(usr, grp) => HandleLeaveGroup(fd, usr, grp);
        case DissolveGroup(usr, grp) => HandleDissolveGroup(fd, usr, grp);
        case CloseChat(usr, chat) =>
          db.DeleteChatObject(chat.(usr := usr));
          Send(fd, Reply(605, true));
        case PurgeOffline(usr) =>
          db.DeleteOfflineMsg(usr);
          Send(fd, Reply(606, true));
        case ListChats(usr) =>
          var chatObjects;
          alive, chatObjects := ListChatObjects(usr);
          if alive {
            Send(fd, ChatList(chatObjects));
          }
        case ListOffline(usr) =>
          var reply := ListOfflineMsgs(usr);
          Send(fd, reply);
        case ApplyFor(usr, group, target, garbage) => HandleApply(fd, usr, group, target, garbage);
        case Identify(usr, login) => alive := HandleIdentify(fd, usr, login);
        case SwitchAccount(lastId) => HandleSwitchAccount(fd, lastId);
        case Disconnect => HandleDisconnect(fd);
      }
    }

    /** Every request, through the handler of its code, is one step of the state machine, unless it
        brings the server down; and so this is what any request does to the foreign keys, to
        friendship, to the two records of the groups, to the group map, to the chat objects of
        pending texts, to the numbers, and to every text on its way to every user. */
    method HandleRequest(fd: int, r: Request) returns (alive: bool)
      requires Possible(db.tables, r)
      modifies this, db, registry
      ensures alive <==> Acceptable(old(db.tables), r)
      ensures alive ==> View() == Handle(old(View()), fd, r)
      ensures alive && Referential(old(db.tables)) ==> Referential(db.tables)
      ensures alive && Mutual(old(db.tables)) ==> Mutual(db.tables)
      ensures alive && Referential(old(db.tables)) && Agree(old(db.tables)) ==>
                (Agree(db.tables) <==> Careful(old(db.tables), r))
      ensures alive && Fresh(old(View())) ==> (Fresh(View()) <==> !ChangesMembership(old(db.tables), r))
      ensures alive && Referential(old(db.tables)) && Covered(old(db.tables)) ==>
                (Covered(db.tables) <==> ClosesNothingPending(old(db.tables), r))
      ensures alive && Disjoint(old(db.tables)) ==> (Disjoint(db.tables) <==> KeepsApart(old(db.tables), r))
      ensures alive ==> forall u, x | Addressed(x, u) ::
                Offered(old(View()), r, u, x) + Pushed(old(sent), u, x) + Waiting(old(db.tables.offline), u, x) ==
                Pushed(sent, u, x) + Waiting(db.tables.offline, u, x)
                  + Purged(old(db.tables), r, u, x) + Refused(old(View()), r, u, x)
      ensures alive ==> WellAddressed(old(registry.onlineFds), old(sent), sent)
    {
      hide Handle, Acceptable, Possible, Referential, Mutual, Agree, Careful, Fresh, ChangesMembership, Covered,
        ClosesNothingPending, Disjoint, KeepsApart, Offered, Pushed, Waiting, Purged, Refused, WellAddressed;
      alive := Dispatch(fd, r);
      ghost var s := old(View());
      StepTheorems(s, fd, r);
    }

    /** The loop of one worker on its descriptor: take a frame off the stream, make a string of it
        and handle the request, until a call of `Unpack` yields none, because the stream has ended
        (`closed`) or there is nothing to read for now; unless the server is brought down before, by
        a request or by a payload without its NUL, of which the code makes no defined use.  Its
        frames, followed by what later workers take, are what the whole stream yields; and what the
        server has done is the run of the requests in these frames, with the end of the stream, if
        it came, as the last, after which nobody is registered at the descriptor. */
    method ThreadToCommunicate(fd: int, conn: ServerWire.Connection, parse: Bytes -> Option<Request>)
      returns (frames: seq<Bytes>, ghost calls: seq<Call>, closed: bool, alive: bool)
      modifies this, db, registry, conn`script
      ensures alive ==> var d := Drain(old(conn.script));
                        frames == d.frames && conn.script == d.left && (closed <==> d.ret == 0)
      ensures !alive ==> !closed && frames != []
                         && frames + Drain(conn.script).frames == Drain(old(conn.script)).frames
      ensures closed ==> frames == ServerStream.Collect(old(conn.script))
      ensures !closed ==> frames + ServerStream.Collect(conn.script) == ServerStream.Collect(old(conn.script))
      ensures alive && Chunks(old(conn.script)) && !Stuck(ServerWire.Arriving(old(conn.script))) ==>
                closed && frames == Parse(ServerWire.Arriving(old(conn.script))).frames
      ensures Plain(calls) == Asked(fd, parse, frames) + if closed then [Call(fd, Disconnect)] else []
      ensures alive <==> Legal(old(View()), calls) && forall f | f in frames :: CString(f).Some?
      ensures alive ==> View() == Run(old(View()), calls)
      ensures closed ==> forall u | u in registry.onlineFds :: registry.onlineFds[u] != fd
    {
      hide Handle, Acceptable, CString, Asked, Plain, Run, Legal, WithLuck, ServerStream.Collect,
        ServerWire.UnpackSpec, ServerWire.Weight, Drain, Taken, Chunks, Stuck, ServerWire.Arriving, Parse;
      frames, calls, alive := [], [], true;
      ghost var s, all := View(), conn.script;
      Nothing(s, fd, parse);
      TakenNothing(all);
      CollectDrains(all);
      if Chunks(all) && !Stuck(ServerWire.Arriving(all)) {
        DrainsToTheEnd(all);
      }
      while true
        invariant Taken(all, frames, conn.script)
        invariant forall f | f in frames :: CString(f).Some?
        invariant Plain(calls) == Asked(fd, parse, frames)
        invariant Legal(s, calls) && View() == Run(s, calls)
        decreases ServerWire.Weight(conn.script)
      {
        ServerStream.UnpackDecreases(conn.script);
        TakenOneMore(all, frames, conn.script);
        var ret, data := conn.Unpack();
        if ret == 0 {
          HandleDisconnect(fd);
          Last(s, calls, fd);
          NobodyLeft(Run(s, calls), fd);
          calls := calls + [Call(fd, Disconnect)];
          closed := true;
          return;
        } else if ret < 0 {
          closed := false;
          return;
        }
        AskedSnoc(fd, parse, frames, data[..]);
        frames := frames + [data[..]];
        var str := CString(data[..]);
        if str.None? {
          closed, alive := false, false;
          assert data[..] in frames;
          TakenMeans(all, frames, conn.script);
          return;
        }
        ghost var c;
        c, alive := HandleData(fd, str.value, parse);
        if c.Some? {
          RunSnoc(s, calls, c.value);
          PlainSnoc(calls, c.value);
          calls := calls + [c.value];
        }
        if !alive {
          closed := false;
          TakenMeans(all, frames, conn.script);
          return;
        }
      }
    }

    lemma TakenMeans(all: ServerWire.Script, frames: seq<Bytes>, now: ServerWire.Script)
      requires Taken(all, frames, now)
      ensures frames + Drain(now).frames == Drain(all).frames
      ensures frames + ServerStream.Collect(now) == ServerStream.Collect(all)
    {
      TakenCollects(all, frames, now);
    }

    lemma NobodyLeft(s: Srv, fd: int)
      ensures forall u | u in Handle(s, fd, Disconnect).online :: Handle(s, fd, Disconnect).online[u] != fd
    {
    }

    /** One request as it came off the wire, with whatever luck it has. */
    method HandleData(fd: int, data: Bytes, parse: Bytes -> Option<Request>)
      returns (ghost c: Option<Call>, alive: bool)
      modifies this, db, registry
      ensures match parse(data) {
                case None => c == None && alive && View() == old(View())
                case Some(r) =>
                  && c.Some? && c.value.fd == fd && WithLuck(c.value.request, 0, 0) == WithLuck(r, 0, 0)
                  && (alive <==> Acceptable(old(db.tables), c.value.request))
                  && (alive ==> View() == Handle(old(View()), fd, c.value.request))
              }
    {
      hide Handle, Acceptable, WithLuck;
      c, alive := None, true;
      var parsed := parse(data);
      if parsed.Some? {
        var garbage: int := *;
        var choice := Draw();
        var r := WithLuck(parsed.value, garbage, choice);
        Drawn(db.tables, parsed.value, garbage, choice);
        c := Some(Call(fd, r));
        alive := Dispatch(fd, r);
      }
    }

    lemma Nothing(s: Srv, fd: int, parse: Bytes -> Option<Request>)
      ensures Plain([]) == Asked(fd, parse, []) && Legal(s, []) && Run(s, []) == s
    {
    }

    lemma Last(s: Srv, calls: seq<Call>, fd: int)
      ensures Run(s, calls + [Call(fd, Disconnect)]) == Handle(Run(s, calls), fd, Disconnect)
      ensures Legal(s, calls + [Call(fd, Disconnect)]) <==> Legal(s, calls)
      ensures Plain(calls + [Call(fd, Disconnect)]) == Plain(calls) + [Call(fd, Disconnect)]
    {
      hide Run, Legal, Plain, Handle;
      RunSnoc(s, calls, Call(fd, Disconnect));
      PlainSnoc(calls, Call(fd, Disconnect));
    }

    lemma Drawn(d: Db, r: Request, garbage: int, choice: int)
      requires d.pool == {} || choice in d.pool
      ensures Possible(d, WithLuck(r, garbage, choice))
      ensures WithLuck(WithLuck(r, garbage, choice), 0, 0) == WithLuck(r, 0, 0)
    {
    }

    /** Requests handled one after another, on whatever descriptors, are a run of the state machine,
        up to the first one that brings the server down. */
    method Serve(calls: seq<Call>) returns (alive: bool)
      requires AllPossible(View(), calls)
      modifies this, db, registry
      ensures alive <==> Legal(old(View()), calls)
      ensures alive ==> View() == Run(old(View()), calls)
      ensures alive && Referential(old(db.tables)) ==> Referential(db.tables)
      ensures alive && Mutual(old(db.tables)) ==> Mutual(db.tables)
      ensures alive && Referential(old(db.tables)) && Agree(old(db.tables)) && AllCareful(old(View()), calls) ==>
                Agree(db.tables)
      ensures alive && Referential(old(db.tables)) && Covered(old(db.tables))
              && AllCloseNothingPending(old(View()), calls) ==>
                Covered(db.tables)
      ensures alive && Fresh(old(View())) && NoneChangesMembership(old(View()), calls) ==> Fresh(View())
      ensures alive && Disjoint(old(db.tables)) && Numbers.AllKeepApart(old(View()), calls) ==> Disjoint(db.tables)
      ensures Referential(old(db.tables)) && Agree(old(db.tables)) ==>
                AllCareful(old(View()), calls) && ByUsers(old(db.tables), calls) ==>
                  alive
      ensures alive ==> forall u, x | Addressed(x, u) ::
                TotalOffered(old(View()), calls, u, x)
                  + Pushed(old(sent), u, x) + Waiting(old(db.tables.offline), u, x) ==
                Pushed(sent, u, x) + Waiting(db.tables.offline, u, x)
                  + TotalPurged(old(View()), calls, u, x) + TotalRefused(old(View()), calls, u, x)
    {
      hide Handle, Acceptable, Possible, Referential, Mutual, Agree, Covered, Pushed, Waiting, AllCareful,
        AllCloseNothingPending, Fresh, NoneChangesMembership, Disjoint, Numbers.AllKeepApart, ByUsers,
        TotalOffered, TotalPurged, TotalRefused;
      assert calls[0..] == calls;
      RunTheorems(old(View()), calls);
      for i := 0 to |calls|
        invariant AllPossible(View(), calls[i..])
        invariant Legal(View(), calls[i..]) <==> Legal(old(View()), calls)
        invariant Run(View(), calls[i..]) == Run(old(View()), calls)
      {
        assert calls[i..][1..] == calls[i + 1..];
        alive := Dispatch(calls[i].fd, calls[i].request);
        if !alive {
          return;
        }
      }
      return true;
    }
  }

  // ---------------------------------------------------------------- requests as they come off the wire

  /** The request with the luck of the draw: what an uninitialised variable held, and the row that
      ORDER BY RAND() put first. */
  function WithLuck(r: Request, garbage: int, choice: int): Request {
    match r
    case Register(_, _) => Register(garbage, choice)
    case CreateGroup(usr, leader, members, _, _) => CreateGroup(usr, leader, members, garbage, choice)
    case ApplyFor(usr, group, target, _) => ApplyFor(usr, group, target, garbage)
    case _ => r
  }

  /** Calls without it. */
  function Plain(calls: seq<Call>): seq<Call> {
    if calls == [] then [] else [Call(calls[0].fd, WithLuck(calls[0].request, 0, 0))] + Plain(calls[1..])
  }

  /** The calls that frames on one descriptor amount to; `parse` gives None for a request that is
      not among those of module Handlers. */
  function Asked(fd: int, parse: Bytes -> Option<Request>, frames: seq<Bytes>): seq<Call> {
    if frames == [] then []
    else Once(fd, Parsed(parse, frames[0])) + Asked(fd, parse, frames[1..])
  }

  lemma {:induction false} PlainSnoc(calls: seq<Call>, c: Call)
    ensures Plain(calls + [c]) == Plain(calls) + [Call(c.fd, WithLuck(c.request, 0, 0))]
  {
    if calls == [] {
      assert [c][1..] == [];
    } else {
      assert (calls + [c])[1..] == calls[1..] + [c];
      PlainSnoc(calls[1..], c);
    }
  }

  function Parsed(parse: Bytes -> Option<Request>, frame: Bytes): Option<Request> {
    match CString(frame)
    case None => None
    case Some(str) => parse(str)
  }

  /** The call that one frame amounts to, if any. */
  function Once(fd: int, parsed: Option<Request>): seq<Call> {
    match parsed
    case None => []
    case Some(r) => [Call(fd, WithLuck(r, 0, 0))]
  }

  lemma {:induction false} AskedSnoc(fd: int, parse: Bytes -> Option<Request>, frames: seq<Bytes>, f: Bytes)
    ensures Asked(fd, parse, frames + [f]) == Asked(fd, parse, frames) + Once(fd, Parsed(parse, f))
  {
    hide Parsed, Once;
    var last := Once(fd, Parsed(parse, f));
    if frames == [] {
      assert [f][1..] == [] && [] + [f] == [f];
      assert last + [] == last == [] + last;
    } else {
      var now, rest := Once(fd, Parsed(parse, frames[0])), Asked(fd, parse, frames[1..]);
      assert (frames + [f])[1..] == frames[1..] + [f];
      AskedSnoc(fd, parse, frames[1..], f);
      assert now + (rest + last) == (now + rest) + last;
    }
  }

  lemma {:induction false} RunSnoc(s: Srv, calls: seq<Call>, c: Call)
    ensures Run(s, calls + [c]) == Handle(Run(s, calls), c.fd, c.request)
    ensures Legal(s, calls + [c]) <==> Legal(s, calls) && Acceptable(Run(s, calls).db, c.request)
    decreases |calls|
  {
    hide Handle, Acceptable;
    if calls == [] {
      assert [c][1..] == [];
    } else {
      assert (calls + [c])[1..] == calls[1..] + [c];
      RunSnoc(Handle(s, calls[0].fd, calls[0].request), calls[1..], c);
    }
  }

  // ---------------------------------------------------------------- the theorems together

  /** What is proved of one step, together. */
  lemma StepTheorems(s: Srv, fd: int, r: Request)
    ensures var t := Handle(s, fd, r);
            && (Referential(s.db) ==> Referential(t.db))
            && (Mutual(s.db) ==> Mutual(t.db))
            && (Referential(s.db) && Agree(s.db) ==> (Agree(t.db) <==> Careful(s.db, r)))
            && (Fresh(s) ==> (Fresh(t) <==> !ChangesMembership(s.db, r)))
            && (Referential(s.db) && Covered(s.db) ==> (Covered(t.db) <==> ClosesNothingPending(s.db, r)))
            && (Disjoint(s.db) ==> (Disjoint(t.db) <==> KeepsApart(s.db, r)))
            && (forall u, x | Addressed(x, u) ::
                  Offered(s, r, u, x) + Pushed(s.sent, u, x) + Waiting(s.db.offline, u, x) ==
                  Pushed(t.sent, u, x) + Waiting(t.db.offline, u, x) + Purged(s.db, r, u, x) + Refused(s, r, u, x))
            && WellAddressed(s.online, s.sent, t.sent)
  {
    hide Handle, Referential, Mutual, Agree, Careful, Fresh, ChangesMembership, Covered, ClosesNothingPending,
      Disjoint, KeepsApart, Offered, Pushed, Waiting, Purged, Refused, WellAddressed;
    if Referential(s.db) {
      HandleKeepsReferential(s, fd, r);
      if Agree(s.db) {
        HandleKeepsIff(s, fd, r);
      }
      if Covered(s.db) {
        HandleCoversIff(s, fd, r);
      }
    }
    if Mutual(s.db) {
      HandleKeepsMutual(s, fd, r);
    }
    if Fresh(s) {
      MapStaysFreshIff(s, fd, r);
    }
    if Disjoint(s.db) {
      DisjointKeepsIff(s, fd, r);
    }
    TextsGoToTheirRecipient(s, fd, r);
    forall u, x | Addressed(x, u)
      ensures var t := Handle(s, fd, r);
              Offered(s, r, u, x) + Pushed(s.sent, u, x) + Waiting(s.db.offline, u, x) ==
              Pushed(t.sent, u, x) + Waiting(t.db.offline, u, x) + Purged(s.db, r, u, x) + Refused(s, r, u, x)
    {
      HandleBalance(s, fd, r, u, x);
    }
  }

  /** And of a whole run. */
  lemma RunTheorems(s: Srv, calls: seq<Call>)
    ensures var t := Run(s, calls);
            && (Referential(s.db) ==> Referential(t.db))
            && (Mutual(s.db) ==> Mutual(t.db))
            && (Referential(s.db) && Agree(s.db) && AllCareful(s, calls) ==> Agree(t.db))
            && (Referential(s.db) && Covered(s.db) && AllCloseNothingPending(s, calls) ==> Covered(t.db))
            && (Fresh(s) && NoneChangesMembership(s, calls) ==> Fresh(t))
            && (Disjoint(s.db) && Numbers.AllKeepApart(s, calls) ==> Disjoint(t.db))
            && (Referential(s.db) && Agree(s.db) && AllCareful(s, calls) && ByUsers(s.db, calls) ==> Legal(s, calls))
            && (forall u, x | Addressed(x, u) ::
                  TotalOffered(s, calls, u, x) + Pushed(s.sent, u, x) + Waiting(s.db.offline, u, x) ==
                  Pushed(t.sent, u, x) + Waiting(t.db.offline, u, x)
                    + TotalPurged(s, calls, u, x) + TotalRefused(s, calls, u, x))
  {
    hide Run, Referential, Mutual, Agree, Covered, AllCareful, AllCloseNothingPending, Pushed, Waiting, Fresh,
      NoneChangesMembership, Disjoint, Numbers.AllKeepApart, ByUsers, Legal, TotalOffered, TotalPurged,
      TotalRefused;
    if Referential(s.db) {
      RunKeepsReferential(s, calls);
      if Agree(s.db) && AllCareful(s, calls) {
        RunKeepsAgreement(s, calls);
        if ByUsers(s.db, calls) {
          CarefulRunsSurvive(s, calls);
        }
      }
      if Covered(s.db) && AllCloseNothingPending(s, calls) {
        RunCovers(s, calls);
      }
    }
    if Mutual(s.db) {
      RunKeepsMutual(s, calls);
    }
    if Fresh(s) && NoneChangesMembership(s, calls) {
      RunStaysFresh(s, calls);
    }
    if Disjoint(s.db) && Numbers.AllKeepApart(s, calls) {
      RunKeepsDisjoint(s, calls);
    }
    forall u, x | Addressed(x, u)
      ensures var t := Run(s, calls);
              TotalOffered(s, calls, u, x) + Pushed(s.sent, u, x) + Waiting(s.db.offline, u, x) ==
              Pushed(t.sent, u, x) + Waiting(t.db.offline, u, x)
                + TotalPurged(s, calls, u, x) + TotalRefused(s, calls, u, x)
    {
      RunBalance(s, calls, u, x);
    }
  }

  /** The new member array of request 602. */
  method Without(memArr: seq<int>, usr: int) returns (newArr: seq<int>)
    ensures newArr == Select(memArr, (u: int) => u != usr)
  {
    hide Select;
    ghost var stays := (u: int) => u != usr;
    newArr := [];
    assert memArr[0..] == memArr;
    for i := 0 to |memArr|
      invariant newArr + Select(memArr[i..], stays) == Select(memArr, stays)
    {
      SelectFrom(memArr, stays, i);
      if usr == memArr[i] {
        continue;
      }
      ghost var rest := Select(memArr[i + 1..], stays);
      assert newArr + ([memArr[i]] + rest) == (newArr + [memArr[i]]) + rest;
      newArr := newArr + [memArr[i]];
    }
    SelectFrom(memArr, stays, |memArr|);
  }
}
