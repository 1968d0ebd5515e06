/**
 What every handler keeps of the tables: the foreign keys, and the symmetry of friendship.
 */
module Integrity {
  import opened Wrappers
  import opened Tables
  import opened Handlers
  import Frames

  // ---------------------------------------------------------------- foreign keys

  /** No row refers to a user or a group that does not exist. */
  ghost predicate Referential(d: Db) {
    && (forall r | r in d.friends :: r.0 in d.users && r.1 in d.users)
    && (forall g | g in d.groups :: d.groups[g].leader in d.users)
    && (forall r | r in d.userGroups :: r.0 in d.users && r.1 in d.groups)
    && (forall c | c in d.chats :: ChatAllowed(d, c))
    && (forall r | r in d.offline :: RowAllowed(d, r))
    && (forall a | a in d.applies :: a.applicant in d.users && a.reviewer in d.users)
  }

  lemma AddFriendKeeps(d: Db, a: int, b: int)
    requires Referential(d)
    ensures Referential(AddFriend(d, a, b).0)
  {
  }

  lemma DeleteFriendKeeps(d: Db, a: int, b: int)
    requires Referential(d)
    ensures Referential(DeleteFriend(d, a, b))
  {
  }

  lemma GroupRowsKeep(d: Db, g: int, leader: int, c: MemberColumn)
    requires Referential(d)
    ensures Referential(AddGroup(d, leader, g, c))
    ensures Referential(UpdateGroupMember(d, g, c))
  {
  }

  lemma DeleteGroupKeeps(d: Db, g: int)
    requires Referential(d)
    ensures Referential(DeleteGroup(d, g))
  {
  }

  lemma UserInGroupKeeps(d: Db, u: int, g: int)
    requires Referential(d)
    ensures Referential(AddUserInGroup(d, u, g))
    ensures Referential(DeleteUserInGroup(d, u, g))
  {
  }

  lemma ChatKeeps(d: Db, c: Chat)
    requires Referential(d)
    ensures Referential(AddChatObject(d, c))
    ensures Referential(DeleteChatObject(d, c))
  {
  }

  lemma OfflineKeeps(d: Db, r: Row, u: int)
    requires Referential(d)
    ensures Referential(AddOfflineMsg(d, r))
    ensures Referential(DeleteOfflineMsg(d, u))
  {
  }

  lemma ApplyKeeps(d: Db, a: Apply, x: int, y: int, group: bool)
    requires Referential(d)
    ensures AddUserApply(d, a).Some? ==> Referential(AddUserApply(d, a).value)
    ensures Referential(DeleteUserApply(d, x, y, group))
  {
  }

  lemma RegisterKeeps(d: Db, id: int)
    requires Referential(d)
    ensures Referential(d.(users := d.users + {id}, pool := d.pool - {id}))
  {
  }

  lemma {:induction false} AddAllKeeps(d: Db, users: seq<int>, g: int)
    requires Referential(d)
    ensures Referential(AddAllInGroup(d, users, g))
    decreases |users|
  {
    hide Referential;
    if users != [] {
      UserInGroupKeeps(d, users[0], g);
      AddAllKeeps(AddUserInGroup(d, users[0], g), users[1..], g);
    }
  }

  lemma {:induction false} FanOutKeeps(s: Srv, m: Msg, members: seq<int>)
    requires Referential(s.db)
    ensures Referential(FanOut(s, m, members).db)
    decreases |members|
  {
    hide Referential, AddOfflineMsg, AddChatObject;
    if members != [] {
      var r := Row(m.sender, members[0], Some(m.receiver), m.text, m.sendTime);
      OfflineKeeps(s.db, r, 0);
      ChatKeeps(AddOfflineMsg(s.db, r), GroupChat(members[0], m.receiver));
      FanOutKeeps(Deliver(s, m, members[0]), m, members[1..]);
    }
  }

  lemma {:induction false} DismissKeeps(s: Srv, members: seq<int>, g: int)
    requires Referential(s.db)
    ensures Referential(Dismiss(s, members, g).db)
    decreases |members|
  {
    hide Referential, DeleteOfflineMsg, DeleteUserInGroup;
    if members != [] {
      var s1 := Push(s, members[0], Reply(603, true));
      var d := DeleteUserInGroup(s1.db, members[0], g);
      UserInGroupKeeps(s.db, members[0], g);
      OfflineKeeps(d, Row(0, 0, None, 0, 0), members[0]);
      DismissKeeps(s1.(db := DeleteOfflineMsg(d, members[0])), members[1..], g);
    }
  }

  /** Every handler keeps the references. */
  lemma HandleKeepsReferential(s: Srv, fd: int, r: Request)
    requires Referential(s.db)
    ensures Referential(Handle(s, fd, r).db)
  {
    hide Handle, Referential;
    if Frames.TouchesGroups(r) {
      GroupRequestsKeep(s, fd, r);
    } else {
      OtherRequestsKeep(s, fd, r);
    }
  }

  lemma GroupRequestsKeep(s: Srv, fd: int, r: Request)
    requires Referential(s.db) && Frames.TouchesGroups(r)
    ensures Referential(Handle(s, fd, r).db)
  {
    hide Referential, AddChatObject, AddOfflineMsg, DeleteOfflineMsg, AddFriend, DeleteFriend, AddGroup,
      UpdateGroupMember, DeleteGroup, AddUserInGroup, DeleteUserInGroup, AddUserApply, DeleteUserApply,
      DeleteChatObject, AddAllInGroup, FanOut, Dismiss, PushAll;
    var d := s.db;
    match r {
      case AnswerGroup(usr, a, _, g) =>
        ApplyKeeps(d, FriendApply(0, 0), a, usr, true);
        if g in d.groups {
          var c := JsonArray(Members(d.groups[g].column) + [a]);
          var d1 := UpdateGroupMember(d, g, c);
          GroupRowsKeep(d, g, 0, c);
          UserInGroupKeeps(d1, a, g);
          ApplyKeeps(AddUserInGroup(d1, a, g), FriendApply(0, 0), a, usr, true);
        }
      case CreateGroup(usr, leader, members, _, id) =>
        var d1 := AddGroup(d, leader, id, members);
        GroupRowsKeep(d, id, leader, members);
        UserInGroupKeeps(d1, leader, id);
        AddAllKeeps(AddUserInGroup(d1, leader, id), Members(members), id);
        CreateGroupDb(s, fd, usr, leader, members, r.garbage, id);
      case LeaveGroup(usr, g) =>
        if g in d.groups {
          var c := Column(Select(Members(d.groups[g].column), (u: int) => u != usr));
          GroupRowsKeep(d, g, 0, c);
          UserInGroupKeeps(UpdateGroupMember(d, g, c), usr, g);
        }
      case DissolveGroup(usr, g) =>
        var s1 := Send(s, fd, Reply(603, true));
        UserInGroupKeeps(d, usr, g);
        OfflineKeeps(DeleteUserInGroup(d, usr, g), Row(0, 0, None, 0, 0), usr);
        var s2 := s1.(db := DeleteOfflineMsg(DeleteUserInGroup(s1.db, usr, g), usr));
        var members := if g in s2.db.groups then Members(s2.db.groups[g].column) else [];
        DismissKeeps(s2, members, g);
        DeleteGroupKeeps(Dismiss(s2, members, g).db, g);
    }
  }

  lemma OtherRequestsKeep(s: Srv, fd: int, r: Request)
    requires Referential(s.db) && !Frames.TouchesGroups(r)
    ensures Referential(Handle(s, fd, r).db)
  {
    hide Referential, AddChatObject, AddOfflineMsg, DeleteOfflineMsg, AddFriend, DeleteFriend, AddGroup,
      UpdateGroupMember, DeleteGroup, AddUserInGroup, DeleteUserInGroup, AddUserApply, DeleteUserApply,
      DeleteChatObject, AddAllInGroup, FanOut, Dismiss, PushAll;
    var d := s.db;
    match r {
      case Register(_, choice) => RegisterKeeps(d, choice);
      case AnswerFriend(usr, a, _) =>
        AddFriendKeeps(d, a, usr);
        ApplyKeeps(AddFriend(d, a, usr).0, FriendApply(0, 0), a, usr, false);
        ApplyKeeps(d, FriendApply(0, 0), a, usr, false);
      case Chatting(m) =>
        ChatKeeps(d, FirstChat(m));
        var s1 := s.(db := AddChatObject(d, FirstChat(m)));
        if m.group && m.receiver in s1.groups {
          FanOutKeeps(s1, m, s1.groups[m.receiver]);
        } else {
          var row := Row(m.sender, m.receiver, None, m.text, m.sendTime);
          OfflineKeeps(s1.db, row, 0);
          ChatKeeps(AddOfflineMsg(s1.db, row), FriendChat(FdTool.FdOf(s1.online, m.receiver), m.sender));
        }
      case OpenChat(usr, c) => ChatKeeps(d, c.(usr := usr));
      case Unfriend(usr, frd) =>
        var row := Row(0, 0, None, 0, 0);
        DeleteFriendKeeps(d, usr, frd);
        OfflineKeeps(DeleteFriend(d, usr, frd), row, usr);
        OfflineKeeps(DeleteOfflineMsg(DeleteFriend(d, usr, frd), usr), row, frd);
      case CloseChat(usr, c) => ChatKeeps(d, c.(usr := usr));
      case PurgeOffline(usr) => OfflineKeeps(d, Row(0, 0, None, 0, 0), usr);
      case ApplyFor(usr, group, target, garbage) =>
        var reviewer := if !group then target else if target in d.groups then d.groups[target].leader else garbage;
        ApplyKeeps(d, if group then GroupApply(usr, reviewer, target) else FriendApply(usr, reviewer), 0, 0, false);
      case _ =>
    }
  }

  /** The table side of request 506. */
  lemma CreateGroupDb(s: Srv, fd: int, usr: int, leader: int, members: MemberColumn, garbage: int, id: int)
    ensures HandleCreateGroup(s, fd, usr, leader, members, garbage, id).db
         == if NewIdOf(s.db, garbage, id) == None then s.db
            else AddAllInGroup(AddUserInGroup(AddGroup(s.db, leader, id, members), leader, id), Members(members), id)
  {
    hide AddGroup, AddUserInGroup, PushAll;
    var d := AddUserInGroup(AddGroup(s.db, leader, id, members), leader, id);
    var s1 := Send(s.(db := d), fd, Notice(816));
    var ids := Members(members);
    if ids == [] {
      assert AddAllInGroup(d, ids, id) == d;
    } else {
      var s2 := Push(s1.(db := AddAllInGroup(s1.db, ids, id)), usr, Reply(506, true));
      assert PushAll(s2, ids, Notice(903)).db == s2.db;
    }
  }

  lemma {:induction false} RunKeepsReferential(s: Srv, calls: seq<Call>)
    requires Referential(s.db)
    ensures Referential(Run(s, calls).db)
    decreases |calls|
  {
    hide Referential, Handle;
    if calls != [] {
      HandleKeepsReferential(s, calls[0].fd, calls[0].request);
      RunKeepsReferential(Handle(s, calls[0].fd, calls[0].request), calls[1..]);
    }
  }

  // ---------------------------------------------------------------- friendship

  /** Both directions of a friendship are recorded equally often. */
  ghost predicate Mutual(d: Db) {
    forall a, b :: Count(d.friends, (a, b)) == Count(d.friends, (b, a))
  }

  /** Two rows with the same foreign keys: the second is refused only if the first is. */
  lemma AddFriendIsMutual(d: Db, a: int, b: int)
    requires Mutual(d)
    ensures Mutual(AddFriend(d, a, b).0)
    ensures AddFriend(d, a, b).1 <==> a in d.users && b in d.users
    ensures !AddFriend(d, a, b).1 ==> AddFriend(d, a, b).0 == d
  {
    if a in d.users && b in d.users {
      var e := AddFriend(d, a, b).0;
      assert e.friends == d.friends + [(a, b)] + [(b, a)];
      forall x, y
        ensures Count(e.friends, (x, y)) == Count(e.friends, (y, x))
      {
        CountTwoMore(d.friends, (a, b), (b, a), (x, y));
        CountTwoMore(d.friends, (a, b), (b, a), (y, x));
      }
    }
  }

  lemma CountTwoMore<T>(rows: seq<T>, p: T, q: T, x: T)
    ensures Count(rows + [p] + [q], x) == Count(rows, x) + (if p == x then 1 else 0) + (if q == x then 1 else 0)
  {
    CountAppend(rows + [p], [q], x);
    CountAppend(rows, [p], x);
    assert [p][1..] == [] && [q][1..] == [];
  }

  lemma DeleteFriendIsMutual(d: Db, a: int, b: int)
    requires Mutual(d)
    ensures Mutual(DeleteFriend(d, a, b))
    ensures Count(DeleteFriend(d, a, b).friends, (a, b)) == 0
  {
    var e := DeleteFriend(d, a, b);
    forall x, y
      ensures Count(e.friends, (x, y)) == if (x, y) == (a, b) || (x, y) == (b, a) then 0 else Count(d.friends, (x, y))
    {
      var first, second := (r: (int, int)) => r != (a, b), (r: (int, int)) => r != (b, a);
      CountSelect(d.friends, first, (x, y));
      CountSelect(Select(d.friends, first), second, (x, y));
    }
  }

  /** Friendship stays symmetric, with multiplicity, through every run. */
  lemma HandleKeepsMutual(s: Srv, fd: int, r: Request)
    requires Mutual(s.db)
    ensures Mutual(Handle(s, fd, r).db)
  {
    hide AddFriend, DeleteFriend, Mutual, Handle;
    var e := Handle(s, fd, r).db;
    if r.AnswerFriend? {
      AnswerFriendFriends(s, fd, r.usr, r.applicant, r.agree);
      AddFriendIsMutual(s.db, r.applicant, r.usr);
      SameFriends(if r.agree then AddFriend(s.db, r.applicant, r.usr).0 else s.db, e);
    } else if r.Unfriend? {
      UnfriendFriends(s, fd, r.usr, r.frd);
      DeleteFriendIsMutual(s.db, r.usr, r.frd);
      SameFriends(DeleteFriend(s.db, r.usr, r.frd), e);
    } else {
      Frames.Frame(s, fd, r);
      SameFriends(s.db, e);
    }
  }

  lemma AnswerFriendFriends(s: Srv, fd: int, usr: int, a: int, agree: bool)
    ensures Handle(s, fd, AnswerFriend(usr, a, agree)).db.friends
         == if agree then AddFriend(s.db, a, usr).0.friends else s.db.friends
  {
    hide AddFriend;
  }

  lemma UnfriendFriends(s: Srv, fd: int, usr: int, frd: int)
    ensures Handle(s, fd, Unfriend(usr, frd)).db.friends == DeleteFriend(s.db, usr, frd).friends
  {
    hide DeleteFriend;
  }

  lemma SameFriends(d: Db, e: Db)
    ensures d.friends == e.friends && Mutual(d) ==> Mutual(e)
  {
  }

  lemma {:induction false} RunKeepsMutual(s: Srv, calls: seq<Call>)
    requires Mutual(s.db)
    ensures Mutual(Run(s, calls).db)
    decreases |calls|
  {
    hide Mutual, Handle;
    if calls != [] {
      HandleKeepsMutual(s, calls[0].fd, calls[0].request);
      RunKeepsMutual(Handle(s, calls[0].fd, calls[0].request), calls[1..]);
    }
  }

  // ---------------------------------------------------------------- applications

  /** An application for friendship that has been answered is gone, granted or not, since the
      foreign keys that let it in let the friendship in; and no other goes with it. */
  lemma AnsweredIsGone(s: Srv, fd: int, usr: int, a: int, agree: bool, x: Apply)
    requires Referential(s.db)
    ensures x in Handle(s, fd, AnswerFriend(usr, a, agree)).db.applies
       <==> x in s.db.applies && x != FriendApply(a, usr)
  {
    hide Select;
    var d := s.db;
    var e := Handle(s, fd, AnswerFriend(usr, a, agree)).db;
    assert e.applies == (if agree && !AddFriend(d, a, usr).1 then d else DeleteUserApply(d, a, usr, false)).applies;
    SelectMeans(d.applies, (y: Apply) => !(y.applicant == a && y.reviewer == usr && y.GroupApply? == false), x);
  }

  /** An answer to an application to join a group takes with it every application of that person
      to any group of that reviewer, unless it grants one for a group that is gone; then all stay. */
  lemma AnsweredGroupIsGoneIff(s: Srv, fd: int, usr: int, a: int, agree: bool, g: int, x: Apply)
    requires x in s.db.applies
    ensures x in Handle(s, fd, AnswerGroup(usr, a, agree, g)).db.applies
       <==> !(x.GroupApply? && x.applicant == a && x.reviewer == usr) || (agree && g !in s.db.groups)
  {
    hide Select;
    var d := s.db;
    var e := Handle(s, fd, AnswerGroup(usr, a, agree, g)).db;
    assert e.applies == (if agree && g !in d.groups then d else DeleteUserApply(d, a, usr, true)).applies;
    SelectMeans(d.applies, (y: Apply) => !(y.applicant == a && y.reviewer == usr && y.GroupApply? == true), x);
  }

  lemma SelectMeans<T(!new)>(rows: seq<T>, keep: T -> bool, x: T)
    ensures x in Select(rows, keep) <==> x in rows && keep(x)
  {
  }

  // ---------------------------------------------------------------- after a group is dissolved

  /** Request 603 leaves the group in no table of groups, memberships, chat objects or pending
      texts.  Applications to join it may stay: their group number is no foreign key. */
  lemma DissolvedWithoutTrace(s: Srv, fd: int, usr: int, g: int)
    requires Referential(s.db)
    ensures var d := HandleDissolveGroup(s, fd, usr, g).db;
            && g !in d.groups
            && (forall u :: (u, g) !in d.userGroups)
            && (forall c | c in d.chats :: !(c.GroupChat? && c.grp == g))
            && (forall r | r in d.offline :: r.grp != Some(g))
  {
    HandleKeepsReferential(s, fd, DissolveGroup(usr, g));
    var d := HandleDissolveGroup(s, fd, usr, g).db;
    assert Handle(s, fd, DissolveGroup(usr, g)).db == d;
    assert g !in d.groups;
  }
}
