/** Which parts of the server's state each request leaves alone. */
module Frames {
  import opened Tables
  import opened Handlers

  // ---------------------------------------------------------------- handler by handler

  lemma Pushed(s: Srv, usr: int, p: Packet)
    ensures var t := Push(s, usr, p);
            t == s.(sent := t.sent)
  {
  }

  lemma Registered(s: Srv, fd: int, garbage: int, choice: int)
    ensures var t := HandleRegister(s, fd, garbage, choice);
            t == s.(db := s.db.(users := t.db.users, pool := t.db.pool), sent := t.sent)
  {
  }

  lemma FriendAnswered(s: Srv, fd: int, usr: int, a: int, agree: bool)
    ensures var t := HandleAnswerFriend(s, fd, usr, a, agree);
            t == s.(db := s.db.(friends := t.db.friends, applies := t.db.applies), sent := t.sent)
  {
    hide Push, Select;
    var s1 := s.(db := AddFriend(s.db, a, usr).0);
    Pushed(s1, a, Notice(903));
    Pushed(Push(s1, a, Notice(903)), usr, Notice(903));
  }

  lemma GroupAnswered(s: Srv, fd: int, usr: int, a: int, agree: bool, g: int)
    ensures var t := HandleAnswerGroup(s, fd, usr, a, agree, g);
            t == s.(db := s.db.(groups := t.db.groups, userGroups := t.db.userGroups, applies := t.db.applies),
                    sent := t.sent)
    ensures var t := HandleAnswerGroup(s, fd, usr, a, agree, g);
            t.db.groups.Keys == s.db.groups.Keys
  {
    hide Select;
  }

  lemma Founded(s: Srv, fd: int, usr: int, leader: int, members: MemberColumn, garbage: int, choice: int)
    ensures var t := HandleCreateGroup(s, fd, usr, leader, members, garbage, choice);
            t == s.(db := s.db.(groups := t.db.groups, userGroups := t.db.userGroups), sent := t.sent)
  {
    hide PushAll, AddAllInGroup, Push;
    if NewIdOf(s.db, garbage, choice).Some? && Members(members) != [] {
      var d := AddUserInGroup(AddGroup(s.db, leader, choice, members), leader, choice);
      var s1 := Send(s.(db := d), fd, Notice(816));
      var e := AddAllInGroup(d, Members(members), choice);
      AllAdded(d, Members(members), choice);
      var s2 := Push(s1.(db := e), usr, Reply(506, true));
      Pushed(s1.(db := e), usr, Reply(506, true));
      AllPushed(s2, Members(members), Notice(903));
    }
  }

  lemma AllAdded(d: Db, users: seq<int>, g: int)
    ensures var e := AddAllInGroup(d, users, g);
            e == d.(userGroups := e.userGroups)
  {
  }

  lemma AllPushed(s: Srv, users: seq<int>, p: Packet)
    ensures var t := PushAll(s, users, p);
            t == s.(sent := t.sent)
  {
  }

  lemma Applied(s: Srv, fd: int, usr: int, group: bool, target: int, garbage: int)
    ensures var t := HandleApply(s, fd, usr, group, target, garbage);
            t == s.(db := s.db.(applies := t.db.applies), sent := t.sent)
  {
  }

  lemma Chatted(s: Srv, fd: int, m: Msg)
    ensures var t := HandleChatting(s, fd, m);
            t == s.(db := s.db.(chats := t.db.chats, offline := t.db.offline), sent := t.sent)
  {
    hide FanOut, ChatAllowed, RowAllowed, Push;
    var s1 := s.(db := AddChatObject(s.db, FirstChat(m)));
    Pushed(s1, m.receiver, Text(m.receiver, m));
    if m.group && m.receiver in s1.groups {
      FannedOut(s1, m, s1.groups[m.receiver]);
    }
  }

  lemma FannedOut(s: Srv, m: Msg, members: seq<int>)
    ensures var t := FanOut(s, m, members);
            t == s.(sent := t.sent, db := s.db.(chats := t.db.chats, offline := t.db.offline))
  {
  }

  lemma Unfriended(s: Srv, fd: int, usr: int, frd: int)
    ensures var t := HandleUnfriend(s, fd, usr, frd);
            t == s.(db := s.db.(friends := t.db.friends, offline := t.db.offline), sent := t.sent)
  {
    hide Select;
  }

  lemma Left(s: Srv, fd: int, usr: int, g: int)
    ensures var t := HandleLeaveGroup(s, fd, usr, g);
            && t == s.(db := s.db.(groups := t.db.groups, userGroups := t.db.userGroups), sent := t.sent)
            && t.db.groups.Keys == s.db.groups.Keys
  {
    hide Select;
  }

  lemma Dissolved(s: Srv, fd: int, usr: int, g: int)
    ensures var t := HandleDissolveGroup(s, fd, usr, g);
            && t == s.(db := s.db.(groups := t.db.groups, userGroups := t.db.userGroups,
                                   chats := t.db.chats, offline := t.db.offline),
                       sent := t.sent)
            && t.db.groups.Keys <= s.db.groups.Keys
  {
    hide Select, Dismiss;
    var s1 := Send(s, fd, Reply(603, true));
    var s2 := s1.(db := DeleteOfflineMsg(DeleteUserInGroup(s1.db, usr, g), usr));
    var members := if g in s2.db.groups then Members(s2.db.groups[g].column) else [];
    Dismissed(s2, members, g);
  }

  lemma Dismissed(s: Srv, members: seq<int>, g: int)
    ensures var t := Dismiss(s, members, g);
            t == s.(sent := t.sent, db := s.db.(userGroups := t.db.userGroups, offline := t.db.offline))
  {
  }

  // ---------------------------------------------------------------- all together

  predicate TouchesGroups(r: Request) {
    r.AnswerGroup? || r.CreateGroup? || r.LeaveGroup? || r.DissolveGroup?
  }

  predicate TouchesChats(r: Request) {
    r.Chatting? || r.OpenChat? || r.CloseChat? || r.DissolveGroup?
  }

  predicate TouchesOffline(r: Request) {
    r.Chatting? || r.PurgeOffline? || r.Unfriend? || r.DissolveGroup?
  }

  predicate TouchesOnline(r: Request) {
    r.Identify? || r.SwitchAccount? || r.Disconnect?
  }

  /** What a request does not name it does not change; and no request touches the group map. */
  lemma Frame(s: Srv, fd: int, r: Request)
    ensures var t := Handle(s, fd, r);
            && t.groups == s.groups
            && (!r.Register? ==> t.db.users == s.db.users && t.db.pool == s.db.pool)
            && (!r.AnswerFriend? && !r.Unfriend? ==> t.db.friends == s.db.friends)
            && (!TouchesGroups(r) ==> t.db.groups == s.db.groups && t.db.userGroups == s.db.userGroups)
            && (!r.CreateGroup? ==> t.db.groups.Keys <= s.db.groups.Keys)
            && (!TouchesChats(r) ==> t.db.chats == s.db.chats)
            && (!TouchesOffline(r) ==> t.db.offline == s.db.offline)
            && (!TouchesOnline(r) ==> t.online == s.online)
  {
    hide HandleRegister, HandleAnswerFriend, HandleAnswerGroup, HandleCreateGroup, HandleApply, HandleChatting,
      HandleUnfriend, HandleLeaveGroup, HandleDissolveGroup, AddChatObject, DeleteChatObject, Select,
      OfflineReply;
    match r {
      case Register(garbage, choice) => Registered(s, fd, garbage, choice);
      case AnswerFriend(usr, a, agree) => FriendAnswered(s, fd, usr, a, agree);
      case AnswerGroup(usr, a, agree, g) => GroupAnswered(s, fd, usr, a, agree, g);
      case CreateGroup(usr, leader, members, garbage, choice) => Founded(s, fd, usr, leader, members, garbage, choice);
      case ApplyFor(usr, group, target, garbage) => Applied(s, fd, usr, group, target, garbage);
      case Chatting(m) => Chatted(s, fd, m);
      case Unfriend(usr, frd) => Unfriended(s, fd, usr, frd);
      case LeaveGroup(usr, g) => Left(s, fd, usr, g);
      case DissolveGroup(usr, g) => Dissolved(s, fd, usr, g);
      case OpenChat(usr, c) => ChatsOnly(s.db, c.(usr := usr));
      case CloseChat(usr, c) => ChatsOnly(s.db, c.(usr := usr));
      case _ =>
    }
  }

  lemma ChatsOnly(d: Db, c: Chat)
    ensures var e := AddChatObject(d, c);
            e == d.(chats := e.chats)
    ensures var e := DeleteChatObject(d, c);
            e == d.(chats := e.chats)
  {
    hide ChatAllowed, Select;
  }
}
