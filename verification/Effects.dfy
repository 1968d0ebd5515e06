/**
 What each request does, row by row and packet by packet, said without its handler: how often every
 row stands in every table afterwards, and what has been sent to which descriptor.  (What a request
 does not touch is in module Frames; texts pushed and stored are accounted for in Delivery, the
 registry in Misrouting and Routing, the ids in IdPool.)
 */
module Effects {
  import opened Wrappers
  import opened Tables
  import opened FdTool
  import opened Handlers
  import Frames
  import opened Integrity
  import opened Agreement
  import opened Delivery

  // ---------------------------------------------------------------- packets

  /** To a user, if the server finds a descriptor for him. */
  function To(online: Registry, usr: int, p: Packet): seq<Sent> {
    if FdOf(online, usr) > 0 then [Sent(FdOf(online, usr), p)] else []
  }

  function ToEach(online: Registry, users: seq<int>, p: Packet): seq<Sent> {
    if users == [] then [] else To(online, users[0], p) + ToEach(online, users[1..], p)
  }

  lemma PushIsTo(s: Srv, usr: int, p: Packet)
    ensures Push(s, usr, p) == s.(sent := s.sent + To(s.online, usr, p))
  {
    assert s.sent + [] == s.sent;
  }

  lemma {:induction false} PushAllIsToEach(s: Srv, users: seq<int>, p: Packet)
    ensures PushAll(s, users, p) == s.(sent := s.sent + ToEach(s.online, users, p))
    decreases |users|
  {
    hide Push;
    if users == [] {
      assert s.sent + [] == s.sent;
    } else {
      var t := Push(s, users[0], p);
      PushIsTo(s, users[0], p);
      PushAllIsToEach(t, users[1..], p);
      var first, rest := To(s.online, users[0], p), ToEach(s.online, users[1..], p);
      assert (s.sent + first) + rest == s.sent + (first + rest);
    }
  }

  lemma {:induction false} DismissIsToEach(s: Srv, members: seq<int>, g: int)
    ensures Dismiss(s, members, g).sent == s.sent + ToEach(s.online, members, Reply(603, true))
    decreases |members|
  {
    hide Push, Tables.DeleteOfflineMsg, Tables.DeleteUserInGroup;
    if members == [] {
      assert s.sent + [] == s.sent;
    } else {
      var s1 := Push(s, members[0], Reply(603, true));
      PushIsTo(s, members[0], Reply(603, true));
      var d := DeleteOfflineMsg(DeleteUserInGroup(s1.db, members[0], g), members[0]);
      DismissIsToEach(s1.(db := d), members[1..], g);
      var first, rest := To(s.online, members[0], Reply(603, true)), ToEach(s.online, members[1..], Reply(603, true));
      assert (s.sent + first) + rest == s.sent + (first + rest);
    }
  }

  // ---------------------------------------------------------------- 501, 601: friendship

  /** A friendship granted between two users is recorded once each way, everybody is told, and no
      other friendship changes; granted to or by somebody who is no user, nothing happens at all. */
  lemma AnswerFriendEffect(s: Srv, fd: int, usr: int, a: int, agree: bool, p: (int, int))
    ensures var t := Handle(s, fd, AnswerFriend(usr, a, agree));
            var users := a in s.db.users && usr in s.db.users;
            && Count(t.db.friends, p) == Count(s.db.friends, p)
                 + (if agree && users then One(p == (a, usr)) + One(p == (usr, a)) else 0)
            && t.sent == s.sent + (if !agree then [Sent(fd, Reply(501, true))]
                                   else if !users then []
                                   else To(s.online, a, Notice(903)) + To(s.online, usr, Notice(903))
                                        + [Sent(fd, Reply(501, true))])
            && (agree && !users ==> t == s)
  {
    hide Push, Count, Select;
    assert s.sent + [] == s.sent;
    if agree && a in s.db.users && usr in s.db.users {
      var s1 := s.(db := AddFriend(s.db, a, usr).0);
      assert s1.db.friends == s.db.friends + [(a, usr)] + [(usr, a)];
      CountTwoMore(s.db.friends, (a, usr), (usr, a), p);
      PushIsTo(s1, a, Notice(903));
      PushIsTo(Push(s1, a, Notice(903)), usr, Notice(903));
      Thrice(s.sent, To(s.online, a, Notice(903)), To(s.online, usr, Notice(903)), [Sent(fd, Reply(501, true))]);
    }
  }

  lemma Thrice(s: seq<Sent>, a: seq<Sent>, b: seq<Sent>, c: seq<Sent>)
    ensures s + a + b + c == s + (a + b + c)
  {
  }

  /** Unfriending removes the rows of this pair, each way, and no others; both users' pending texts
      go (module Delivery), and the answer goes out once, or twice if the other is online, both
      times to the descriptor that asked. */
  lemma UnfriendEffect(s: Srv, fd: int, usr: int, frd: int, p: (int, int))
    ensures var t := Handle(s, fd, Unfriend(usr, frd));
            && Count(t.db.friends, p)
               == (if p == (usr, frd) || p == (frd, usr) then 0 else Count(s.db.friends, p))
            && t.sent == s.sent + [Sent(fd, Reply(601, true))]
                           + if FdOf(s.online, frd) > 0 then [Sent(fd, Reply(601, true))] else []
  {
    hide Select, Count;
    var first, second := (r: (int, int)) => r != (usr, frd), (r: (int, int)) => r != (frd, usr);
    CountSelect(s.db.friends, first, p);
    CountSelect(Select(s.db.friends, first), second, p);
    assert s.sent + [Sent(fd, Reply(601, true))] + [] == s.sent + [Sent(fd, Reply(601, true))];
  }

  // ---------------------------------------------------------------- applications

  /** 501 takes the application it answers, 502 all of that applicant to that reviewer for a group,
      as often as they stand there; a grant that comes to nothing takes none. */
  lemma AnswerTakesApplications(s: Srv, fd: int, usr: int, a: int, agree: bool, g: int, x: Apply)
    ensures Count(Handle(s, fd, AnswerFriend(usr, a, agree)).db.applies, x)
         == (if x == FriendApply(a, usr) && !(agree && !(a in s.db.users && usr in s.db.users)) then 0
             else Count(s.db.applies, x))
    ensures Count(Handle(s, fd, AnswerGroup(usr, a, agree, g)).db.applies, x)
         == (if x.GroupApply? && x.applicant == a && x.reviewer == usr && !(agree && g !in s.db.groups) then 0
             else Count(s.db.applies, x))
  {
    hide Select, Count;
    var d := s.db;
    CountSelect(d.applies, (y: Apply) => !(y.applicant == a && y.reviewer == usr && y.GroupApply? == false), x);
    CountSelect(d.applies, (y: Apply) => !(y.applicant == a && y.reviewer == usr && y.GroupApply? == true), x);
    FriendApplies(s, fd, usr, a, agree);
    GroupApplies(s, fd, usr, a, agree, g);
  }

  lemma FriendApplies(s: Srv, fd: int, usr: int, a: int, agree: bool)
    ensures Handle(s, fd, AnswerFriend(usr, a, agree)).db.applies
         == if agree && !(a in s.db.users && usr in s.db.users) then s.db.applies
            else DeleteUserApply(s.db, a, usr, false).applies
  {
    hide Select;
  }

  lemma GroupApplies(s: Srv, fd: int, usr: int, a: int, agree: bool, g: int)
    ensures Handle(s, fd, AnswerGroup(usr, a, agree, g)).db.applies
         == if agree && g !in s.db.groups then s.db.applies else DeleteUserApply(s.db, a, usr, true).applies
  {
    hide Select;
  }

  /** 901 records one application, for the friend asked or for the leader of the group, and for
      whoever `garbage` is without such a group, if both are users; it answers whether it has, and
      notifies the reviewer. */
  lemma ApplyEffect(s: Srv, fd: int, usr: int, group: bool, target: int, garbage: int, x: Apply)
    ensures var t := Handle(s, fd, ApplyFor(usr, group, target, garbage));
            var reviewer := if !group then target
                            else if target in s.db.groups then s.db.groups[target].leader else garbage;
            var ok := usr in s.db.users && reviewer in s.db.users;
            var application := if group then GroupApply(usr, reviewer, target) else FriendApply(usr, reviewer);
            && Count(t.db.applies, x) == Count(s.db.applies, x) + One(ok && x == application)
            && t.sent == s.sent + [Sent(fd, Reply(901, ok))] + To(s.online, reviewer, Notice(902))
  {
    hide Count, Push;
    var reviewer := if !group then target
                    else if target in s.db.groups then s.db.groups[target].leader else garbage;
    var application := if group then GroupApply(usr, reviewer, target) else FriendApply(usr, reviewer);
    CountOne(s.db.applies, application, x);
    PushIsTo(Send(s, fd, Reply(901, false)), reviewer, Notice(902));
    var d := s.db.(applies := s.db.applies + [application]);
    PushIsTo(Send(s.(db := d), fd, Reply(901, true)), reviewer, Notice(902));
  }

  // ---------------------------------------------------------------- 502, 602, 506, 603: groups

  /** Admitting somebody to a group lists him once more, at the end, and gives him one row if he is
      a user; nobody else is listed or not for it, and no other group changes.  Every request is
      answered first; the applicant is told, or, without such a group, the answer is repeated. */
  lemma JoinEffect(s: Srv, fd: int, usr: int, a: int, agree: bool, g: int, p: (int, int))
    ensures var t := Handle(s, fd, AnswerGroup(usr, a, agree, g));
            var joins := agree && g in s.db.groups;
            && t.db.groups.Keys == s.db.groups.Keys
            && (forall h | h in s.db.groups ::
                  && t.db.groups[h].leader == s.db.groups[h].leader
                  && Members(t.db.groups[h].column)
                     == Members(s.db.groups[h].column) + (if joins && h == g then [a] else []))
            && Count(t.db.userGroups, p)
               == Count(s.db.userGroups, p) + One(joins && p == (a, g) && a in s.db.users)
            && t.sent == s.sent + [Sent(fd, Reply(502, true))]
                           + (if !agree then [] else if joins then To(s.online, a, Notice(903))
                              else [Sent(fd, Reply(502, true))])
  {
    hide Count, Select;
    var d := s.db;
    JoinSends(s, fd, usr, a, agree, g);
    if agree && g in d.groups {
      var d1 := UpdateGroupMember(d, g, JsonArray(Members(d.groups[g].column) + [a]));
      CountAdded(d1, a, g, p.0, p.1);
    }
  }

  lemma JoinSends(s: Srv, fd: int, usr: int, a: int, agree: bool, g: int)
    ensures Handle(s, fd, AnswerGroup(usr, a, agree, g)).sent
         == s.sent + [Sent(fd, Reply(502, true))]
            + (if !agree then [] else if g in s.db.groups then To(s.online, a, Notice(903))
               else [Sent(fd, Reply(502, true))])
  {
    hide Push, Tables.DeleteUserApply, Tables.UpdateGroupMember, Tables.AddUserInGroup;
    var s1 := Send(s, fd, Reply(502, true));
    assert s1.sent + [] == s1.sent;
    if agree && g in s.db.groups {
      var ids := Members(s.db.groups[g].column) + [a];
      var d := AddUserInGroup(UpdateGroupMember(s.db, g, JsonArray(ids)), a, g);
      PushIsTo(s1.(db := d), a, Notice(903));
    }
  }

  /** `b` is `a` with some elements left out. */
  predicate Sub<T(==)>(b: seq<T>, a: seq<T>)
    decreases |a|
  {
    b == [] || (a != [] && (if b[0] == a[0] then Sub(b[1..], a[1..]) else Sub(b, a[1..])))
  }

  lemma {:induction false} SelectIsSub<T(!new)>(rows: seq<T>, keep: T -> bool)
    ensures Sub(Select(rows, keep), rows)
  {
    if rows != [] {
      SelectIsSub(rows[1..], keep);
      var rest := Select(rows[1..], keep);
      if keep(rows[0]) {
        assert ([rows[0]] + rest)[1..] == rest;
      } else {
        assert Select(rows, keep) == rest;
        assert rest == [] || rest[0] in rest;
      }
    }
  }

  /** Leaving a group that lists anybody strikes the leaver off its list, wherever he stands, and
      out of the table; all others stay on the list in their order, and no other group changes. */
  lemma LeaveEffect(s: Srv, fd: int, usr: int, g: int, u: int, p: (int, int))
    ensures var t := Handle(s, fd, LeaveGroup(usr, g));
            var leaves := g in s.db.groups && Members(s.db.groups[g].column) != [];
            && t.db.groups.Keys == s.db.groups.Keys
            && (forall h | h in s.db.groups && h != g :: t.db.groups[h] == s.db.groups[h])
            && (leaves ==>
                  && t.db.groups[g].leader == s.db.groups[g].leader
                  && Count(Members(t.db.groups[g].column), u)
                     == (if u == usr then 0 else Count(Members(s.db.groups[g].column), u))
                  && Sub(Members(t.db.groups[g].column), Members(s.db.groups[g].column)))
            && (!leaves ==> t.db == s.db)
            && Count(t.db.userGroups, p) == (if leaves && p == (usr, g) then 0 else Count(s.db.userGroups, p))
            && t.sent == s.sent + [Sent(fd, Reply(602, leaves))]
  {
    hide Count, Select, Sub;
    if g in s.db.groups && Members(s.db.groups[g].column) != [] {
      var ids := Members(s.db.groups[g].column);
      var stay := (v: int) => v != usr;
      CountSelect(ids, stay, u);
      SelectIsSub(ids, stay);
      CountDeleted(UpdateGroupMember(s.db, g, Column(Select(ids, stay))), usr, g, p.0, p.1);
    }
  }

  /** Founding a group, if its leader is a user and its number new, records leader and members as
      given, one row for the leader and one for each time a user is listed; with the number of an
      existing group the rows are added to that one.  No other group changes.  The founder gets 816
      and, if there are members, the answer, and each member his notice. */
  lemma FoundEffect(s: Srv, fd: int, usr: int, leader: int, members: MemberColumn, garbage: int, id: int, p: (int, int))
    ensures var t := Handle(s, fd, CreateGroup(usr, leader, members, garbage, id));
            var drawn := NewIdOf(s.db, garbage, id).Some?;
            var founds := drawn && leader in s.db.users && id !in s.db.groups;
            && t.db.groups.Keys == s.db.groups.Keys + (if founds then {id} else {})
            && (forall h | h in s.db.groups :: t.db.groups[h] == s.db.groups[h])
            && (founds ==> t.db.groups[id] == Group(leader, members))
            && Count(t.db.userGroups, p) == Count(s.db.userGroups, p)
                 + (if drawn && (founds || id in s.db.groups) && p.1 == id && p.0 in s.db.users
                    then One(p.0 == leader) + Count(Members(members), p.0) else 0)
  {
    hide Count, HandleCreateGroup, AddAllInGroup;
    CreateGroupDb(s, fd, usr, leader, members, garbage, id);
    if NewIdOf(s.db, garbage, id).Some? {
      var d1 := AddGroup(s.db, leader, id, members);
      var d2 := AddUserInGroup(d1, leader, id);
      CountAdded(d1, leader, id, p.0, p.1);
      CountAllAdded(d2, Members(members), id, p.0, p.1);
      Frames.AllAdded(d2, Members(members), id);
    }
  }

  lemma FoundSends(s: Srv, fd: int, usr: int, leader: int, members: MemberColumn, garbage: int, id: int)
    ensures var ids := Members(members);
            Handle(s, fd, CreateGroup(usr, leader, members, garbage, id)).sent ==
            s.sent + (if NewIdOf(s.db, garbage, id) == None then [Sent(fd, Reply(506, false))]
                      else [Sent(fd, Notice(816))]
                           + (if ids == [] then []
                              else To(s.online, usr, Reply(506, true)) + ToEach(s.online, ids, Notice(903))))
  {
    hide AddGroup, AddUserInGroup, AddAllInGroup, PushAll, Push;
    if NewIdOf(s.db, garbage, id).Some? {
      var d := AddUserInGroup(AddGroup(s.db, leader, id, members), leader, id);
      var s1 := Send(s.(db := d), fd, Notice(816));
      var ids := Members(members);
      if ids == [] {
        assert [Sent(fd, Notice(816))] + [] == [Sent(fd, Notice(816))];
      } else {
        var s2 := s1.(db := AddAllInGroup(s1.db, ids, id));
        PushIsTo(s2, usr, Reply(506, true));
        PushAllIsToEach(Push(s2, usr, Reply(506, true)), ids, Notice(903));
        var a, b := [Sent(fd, Notice(816))], To(s.online, usr, Reply(506, true));
        var c := ToEach(s.online, ids, Notice(903));
        Thrice(s.sent, a, b, c);
        assert a + b + c == a + (b + c);
      }
    }
  }

  /** Dissolving a group removes it and every row of it from the groups, the memberships and the
      chat objects, and nothing of any other group; the requester is answered and every member
      told.  (Pending texts are in module Delivery.) */
  lemma DissolveEffect(s: Srv, fd: int, usr: int, g: int, p: (int, int), c: Chat)
    requires Referential(s.db)
    ensures var t := Handle(s, fd, DissolveGroup(usr, g));
            && t.db.groups.Keys == s.db.groups.Keys - {g}
            && (forall h | h in t.db.groups :: t.db.groups[h] == s.db.groups[h])
            && Count(t.db.userGroups, p) == (if p.1 == g then 0 else Count(s.db.userGroups, p))
            && Count(t.db.chats, c) == (if c.GroupChat? && c.grp == g then 0 else Count(s.db.chats, c))
            && t.sent == s.sent + [Sent(fd, Reply(603, true))]
                 + ToEach(s.online, if g in s.db.groups then Members(s.db.groups[g].column) else [], Reply(603, true))
  {
    hide Count, Select, Dismiss, Referential;
    var t := Handle(s, fd, DissolveGroup(usr, g));
    var s1 := Send(s, fd, Reply(603, true));
    var s2 := s1.(db := DeleteOfflineMsg(DeleteUserInGroup(s1.db, usr, g), usr));
    var members := if g in s2.db.groups then Members(s2.db.groups[g].column) else [];
    var s3 := Dismiss(s2, members, g);
    DismissIsToEach(s2, members, g);
    Frames.Dismissed(s2, members, g);
    DissolvedWithoutTrace(s, fd, usr, g);
    CountZero(t.db.userGroups, p);
    CountZero(s.db.chats, c);
    CountZero(t.db.chats, c);
    NoChatOf(s.db, g, c);
    CountSelect(s3.db.chats, (x: Chat) => !(x.GroupChat? && x.grp == g), c);
    if p.1 == g {
      NoRowOf(s, fd, usr, g, p.0);
      assert p == (p.0, g);
    } else {
      CountDeleted(s1.db, usr, g, p.0, p.1);
      DismissCounts(s2, members, g, p.0, p.1);
      CountSelect(s3.db.userGroups, (r: (int, int)) => r.1 != g, p);
    }
  }

  lemma NoRowOf(s: Srv, fd: int, usr: int, g: int, u: int)
    requires Referential(s.db)
    ensures (u, g) !in HandleDissolveGroup(s, fd, usr, g).db.userGroups
  {
    hide Referential, HandleDissolveGroup;
    DissolvedWithoutTrace(s, fd, usr, g);
  }

  lemma NoChatOf(d: Db, g: int, c: Chat)
    requires Referential(d)
    ensures g !in d.groups && c in d.chats ==> !(c.GroupChat? && c.grp == g)
  {
    if c in d.chats {
      assert ChatAllowed(d, c);
    }
  }

  // ---------------------------------------------------------------- 503, 505, 605, 811: chat objects

  /** Adding a chat object puts it there, once, if the foreign keys allow it. */
  lemma AddChatObjectCounts(d: Db, c: Chat, x: Chat)
    ensures Count(AddChatObject(d, c).chats, x)
         == Count(d.chats, x) + One(x == c && c !in d.chats && ChatAllowed(d, c))
  {
    hide Count, ChatAllowed;
    CountOne(d.chats, c, x);
  }

  lemma OpenChatEffect(s: Srv, fd: int, usr: int, c: Chat, x: Chat)
    ensures var t := Handle(s, fd, OpenChat(usr, c));
            var mine := c.(usr := usr);
            && Count(t.db.chats, x)
               == Count(s.db.chats, x) + One(x == mine && mine !in s.db.chats && ChatAllowed(s.db, mine))
            && t.sent == s.sent + [Sent(fd, Reply(505, true))]
  {
    hide Count, AddChatObject, ChatAllowed;
    AddChatObjectCounts(s.db, c.(usr := usr), x);
  }

  lemma CloseChatEffect(s: Srv, fd: int, usr: int, c: Chat, x: Chat)
    ensures var t := Handle(s, fd, CloseChat(usr, c));
            && Count(t.db.chats, x) == (if x == c.(usr := usr) then 0 else Count(s.db.chats, x))
            && t.sent == s.sent + [Sent(fd, Reply(605, true))]
  {
    hide Count, Select;
    var mine := c.(usr := usr);
    CountSelect(s.db.chats, (y: Chat) => y != mine, x);
  }

  lemma PurgeEffect(s: Srv, fd: int, usr: int)
    ensures Handle(s, fd, PurgeOffline(usr)).sent == s.sent + [Sent(fd, Reply(606, true))]
  {
    hide Select;
  }

  /** The chat objects that a text makes sure of: the sender's at the receiver's, as coded, and in a
      group that of every member who is not there to get it; to a friend who is not, that of the
      sender at the number -1 or less that stood for his descriptor. */
  predicate ChatFor(s: Srv, m: Msg, x: Chat) {
    ChatAllowed(s.db, x) &&
    (|| x == (if m.group then GroupChat(m.receiver, m.sender) else FriendChat(m.receiver, m.sender))
     || (m.group && m.receiver in s.groups && x.GroupChat? && x.grp == m.receiver
         && x.usr in s.groups[m.receiver] && x.usr != m.sender && !Online(s, x.usr))
     || (!m.group && !Online(s, m.receiver) && m.sender in s.db.users && m.receiver in s.db.users
         && x == FriendChat(if m.receiver in s.online then s.online[m.receiver] else -1, m.sender)))
  }

  /** Where a text has gone through, each of them is there, once unless it was there more often, and
      no other chat object has come or gone. */
  lemma ChattingChats(s: Srv, fd: int, m: Msg, x: Chat)
    ensures Count(Handle(s, fd, Chatting(m)).db.chats, x)
         == Count(s.db.chats, x) + One(x !in s.db.chats && ChatFor(s, m, x))
  {
    hide Count, FanOut, AddChatObject, ChatAllowed;
    var s1 := s.(db := AddChatObject(s.db, FirstChat(m)));
    AddChatObjectCounts(s.db, FirstChat(m), x);
    SameKeys(s.db, FirstChat(m), x);
    Handled(s, fd, m);
    CountZero(s.db.chats, x);
    CountZero(s1.db.chats, x);
    if m.group {
      if m.receiver in s1.groups {
        FanOutChats(s1, m, s1.groups[m.receiver], x);
      }
    } else if !Online(s1, m.receiver) {
      var r := Row(m.sender, m.receiver, None, m.text, m.sendTime);
      var c := FriendChat(FdOf(s1.online, m.receiver), m.sender);
      var d := AddOfflineMsg(s1.db, r);
      AddChatObjectCounts(d, c, x);
      SameKeysOffline(s1.db, r, x);
    }
  }

  lemma Handled(s: Srv, fd: int, m: Msg)
    ensures Handle(s, fd, Chatting(m)) == HandleChatting(s, fd, m)
  {
  }

  lemma SameKeys(d: Db, c: Chat, x: Chat)
    ensures var e := AddChatObject(d, c);
            e.users == d.users && e.groups == d.groups && e.offline == d.offline
            && ChatAllowed(e, x) == ChatAllowed(d, x)
  {
  }

  lemma SameKeysOffline(d: Db, r: Row, x: Chat)
    ensures var e := AddOfflineMsg(d, r);
            e.users == d.users && e.groups == d.groups && e.chats == d.chats && ChatAllowed(e, x) == ChatAllowed(d, x)
  {
  }

  /** One member's chat object. */
  predicate MemberChat(s: Srv, m: Msg, member: int, x: Chat) {
    x == GroupChat(member, m.receiver) && member != m.sender && !Online(s, member) && ChatAllowed(s.db, x)
  }

  lemma DeliverChats(s: Srv, m: Msg, member: int, x: Chat)
    ensures var t := Deliver(s, m, member);
            && Count(t.db.chats, x) == Count(s.db.chats, x) + One(x !in s.db.chats && MemberChat(s, m, member, x))
            && t.online == s.online && ChatAllowed(t.db, x) == ChatAllowed(s.db, x)
  {
    hide Count, AddChatObject, ChatAllowed, AddOfflineMsg;
    var r := Row(m.sender, member, Some(m.receiver), m.text, m.sendTime);
    var d := AddOfflineMsg(s.db, r);
    SameKeysOffline(s.db, r, x);
    AddChatObjectCounts(d, GroupChat(member, m.receiver), x);
    SameKeys(d, GroupChat(member, m.receiver), x);
  }

  lemma {:induction false} FanOutChats(s: Srv, m: Msg, members: seq<int>, x: Chat)
    ensures Count(FanOut(s, m, members).db.chats, x)
         == Count(s.db.chats, x)
            + One(x !in s.db.chats && x.GroupChat? && x.usr in members && MemberChat(s, m, x.usr, x))
    decreases |members|
  {
    hide Count, Deliver, ChatAllowed;
    if members != [] {
      var t := Deliver(s, m, members[0]);
      DeliverChats(s, m, members[0], x);
      FanOutChats(t, m, members[1..], x);
      CountZero(s.db.chats, x);
      CountZero(t.db.chats, x);
      assert x.GroupChat? ==> (x.usr in members <==> x.usr == members[0] || x.usr in members[1..]);
    }
  }

  /** The texts that go out for one: to each member who is found online, as often and in the order
      in which the list has them, but not to the sender. */
  function TextsTo(online: Registry, m: Msg, members: seq<int>): seq<Sent> {
    if members == [] then []
    else
      (if members[0] == m.sender then [] else To(online, members[0], Text(members[0], m)))
      + TextsTo(online, m, members[1..])
  }

  lemma {:induction false} FanOutSends(s: Srv, m: Msg, members: seq<int>)
    ensures FanOut(s, m, members).sent == s.sent + TextsTo(s.online, m, members)
    decreases |members|
  {
    hide AddChatObject, AddOfflineMsg, Push;
    if members == [] {
      assert s.sent + [] == s.sent;
    } else {
      var t := Deliver(s, m, members[0]);
      PushIsTo(s, members[0], Text(members[0], m));
      FanOutSends(t, m, members[1..]);
      var now := if members[0] == m.sender then [] else To(s.online, members[0], Text(members[0], m));
      assert s.sent + [] == s.sent;
      assert (s.sent + now) + TextsTo(s.online, m, members[1..]) == s.sent + (now + TextsTo(s.online, m, members[1..]));
    }
  }

  /** All that 503 sends: to a friend the text if he is online; in a group the texts to its members,
      by the map, or 504 if the map does not have it. */
  lemma ChattingSends(s: Srv, fd: int, m: Msg)
    ensures Handle(s, fd, Chatting(m)).sent == s.sent +
            if !m.group then To(s.online, m.receiver, Text(m.receiver, m))
            else if m.receiver in s.groups then TextsTo(s.online, m, s.groups[m.receiver])
            else [Sent(fd, Reply(504, false))]
  {
    hide FanOut, AddChatObject, AddOfflineMsg, Push, RowAllowed;
    Handled(s, fd, m);
    var s1 := s.(db := AddChatObject(s.db, FirstChat(m)));
    PushIsTo(s1, m.receiver, Text(m.receiver, m));
    assert s.sent + [] == s.sent;
    if m.group && m.receiver in s1.groups {
      FanOutSends(s1, m, s1.groups[m.receiver]);
    }
  }

  /** The end of a stream sends nothing and touches the registry only. */
  lemma DisconnectEffect(s: Srv, fd: int)
    ensures var t := Handle(s, fd, Disconnect);
            t.sent == s.sent && t.db == s.db && t.groups == s.groups
  {
  }

  /** The 811 reply: the user's chat objects, each as often as it is there, in table order. */
  lemma ListChatsEffect(s: Srv, fd: int, usr: int, x: Chat)
    ensures var t := Handle(s, fd, ListChats(usr));
            && |t.sent| == |s.sent| + 1 && s.sent <= t.sent && t.db == s.db
            && t.sent[|s.sent|].fd == fd && t.sent[|s.sent|].packet.ChatList?
            && var cs := t.sent[|s.sent|].packet.chats;
               Count(cs, x) == (if x.usr == usr then Count(s.db.chats, x) else 0) && Sub(cs, s.db.chats)
  {
    hide Count, Select, Sub;
    CountSelect(s.db.chats, (c: Chat) => c.usr == usr, x);
    SelectIsSub(s.db.chats, (c: Chat) => c.usr == usr);
  }

  // ---------------------------------------------------------------- 812

  /** An entry says truly whose texts it holds: a friend's number with texts of that friend only, or
      a group's, which is no user's, with texts of that group only; and it is one of the user's
      chats. */
  predicate Truthful(d: Db, usr: int, e: Entry) {
    && e.id in ChatIds(d.chats, usr)
    && e.rows != []
    && (forall r | r in e.rows :: r in d.offline && r.frd == usr)
    && (!e.group ==> e.id in d.users && forall r | r in e.rows :: r.sender == e.id)
    && (e.group ==> e.id in d.groups && e.id !in d.users
                    && (e.id != 0 ==> forall r | r in e.rows :: r.grp == Some(e.id)))
  }

  lemma EntryIsTruthful(d: Db, usr: int, id: int, e: Entry)
    requires e in EntryFor(d, usr, id)
    ensures e.id == id && e.rows != []
    ensures forall r | r in e.rows :: r in d.offline && r.frd == usr
    ensures !e.group ==> id in d.users && forall r | r in e.rows :: r.sender == id
    ensures e.group ==> id in d.groups && id !in d.users && (id != 0 ==> forall r | r in e.rows :: r.grp == Some(id))
  {
    hide ByTime, Limit;
    LimitCompleteIff(From(d, id, usr), FRIEND_LIMIT);
    LimitCompleteIff(From(d, 0, usr), FRIEND_LIMIT);
    LimitCompleteIff(In(d, id, usr), GROUP_LIMIT);
  }

  lemma {:induction false} EntriesAreTruthful(d: Db, usr: int, ids: seq<int>, e: Entry)
    requires e in Entries(d, usr, ids) && forall id | id in ids :: id in ChatIds(d.chats, usr)
    ensures Truthful(d, usr, e)
  {
    hide EntryFor, ChatIds;
    assert ids[0] in ids;
    if e in EntryFor(d, usr, ids[0]) {
      EntryIsTruthful(d, usr, ids[0], e);
    } else {
      assert forall id | id in ids[1..] :: id in ids;
      EntriesAreTruthful(d, usr, ids[1..], e);
    }
  }

  /** The 812 reply goes to the descriptor that asked, and every entry of it is truthful; it says
      that there is nothing to say exactly when the user has no chat object. */
  lemma ListOfflineEffect(s: Srv, fd: int, usr: int)
    ensures var t := Handle(s, fd, ListOffline(usr));
            && |t.sent| == |s.sent| + 1 && s.sent <= t.sent && t.db == s.db
            && t.sent[|s.sent|].fd == fd && t.sent[|s.sent|].packet.MsgList?
            && var p := t.sent[|s.sent|].packet;
               && (p.state <==> exists c :: c in s.db.chats && c.usr == usr)
               && (forall e | e in p.entries :: Truthful(s.db, usr, e))
  {
    hide Entries, ChatIds, Truthful;
    var ids := ChatIds(s.db.chats, usr);
    SomeChats(s.db.chats, usr);
    if ids != [] {
      forall e | e in Entries(s.db, usr, ids)
        ensures Truthful(s.db, usr, e)
      {
        EntriesAreTruthful(s.db, usr, ids, e);
      }
    }
  }

  lemma {:induction false} SomeChats(chats: seq<Chat>, usr: int)
    ensures ChatIds(chats, usr) != [] <==> exists c :: c in chats && c.usr == usr
  {
    if chats != [] {
      SomeChats(chats[1..], usr);
      assert chats[0] in chats;
      if c :| c in chats[1..] && c.usr == usr {
        assert c in chats;
      }
    }
  }
}
