/**
 The server's database access: each method issues the statements the source issues, in its
 order, and copies out result rows in loops.  What it must leave behind is the function of the
 tables that module Tables gives.
 */
module DataBase {
  import opened Tables

  lemma ChatIdsFrom(chats: seq<Chat>, i: nat, usr: int)
    requires i <= |chats|
    ensures i == |chats| ==> ChatIds(chats[i..], usr) == []
    ensures i < |chats| && chats[i].usr != usr ==> ChatIds(chats[i..], usr) == ChatIds(chats[i + 1..], usr)
    ensures i < |chats| && chats[i].usr == usr ==>
              ChatIds(chats[i..], usr) == [Side(chats[i])] + ChatIds(chats[i + 1..], usr)
  {
    if i < |chats| {
      assert chats[i..][1..] == chats[i + 1..];
    }
  }

  class DataBase {
    var tables: Db

    constructor (d: Db)
      ensures tables == d
    {
      tables := d;
    }

    // ---------------------------------------------------------------- users and the id pool

    method QueryUser(usrId: int) returns (found: bool)
      ensures found <==> usrId in tables.users
    {
      found := usrId in tables.users;
    }

    /** `newId` comes in with whatever the caller's variable held; `choice` is the row that
        ORDER BY RAND() puts first. */
    method GetNewID(newId: int, choice: int) returns (ok: bool, id: int)
      requires tables.pool == {} || choice in tables.pool
      ensures ok <==> newId !in tables.users && tables.pool != {}
      ensures ok ==> choice in tables.pool
      ensures id == if ok then choice else newId
    {
      var found := QueryUser(newId);
      if found {
        return false, newId;
      }
      if choice !in tables.pool {
        return false, newId;
      }
      return true, choice;
    }

    method Register(newId: int) returns (ok: bool)
      modifies this
      ensures ok <==> newId !in old(tables.users)
      ensures tables == old(tables).(users := old(tables.users) + {newId})
    {
      var found := QueryUser(newId);
      if found {
        assert tables.users == tables.users + {newId};
        return false;
      }
      tables := tables.(users := tables.users + {newId});
      return true;
    }

    method DeleteNewID(newId: int)
      modifies this
      ensures tables == old(tables).(pool := old(tables.pool) - {newId})
    {
      tables := tables.(pool := tables.pool - {newId});
    }

    /** False when there is no row, which the source does not find out before it reads it. */
    method QueryUserInfo(usrId: int) returns (read: bool)
      ensures read <==> usrId in tables.users
    {
      read := usrId in tables.users;
    }

    // ---------------------------------------------------------------- applications

    method AddUserApply(a: Apply) returns (ok: bool)
      modifies this
      ensures ok <==> a.applicant in old(tables.users) && a.reviewer in old(tables.users)
      ensures tables == if ok then old(tables).(applies := old(tables.applies) + [a]) else old(tables)
    {
      match Tables.AddUserApply(tables, a)
      case None => return false;
      case Some(d) =>
        tables := d;
        return true;
    }

    method DeleteUserApply(applicant: int, reviewer: int, group: bool)
      modifies this
      ensures tables == Tables.DeleteUserApply(old(tables), applicant, reviewer, group)
    {
      tables := Tables.DeleteUserApply(tables, applicant, reviewer, group);
    }

    // ---------------------------------------------------------------- friends

    /** Two insertions; the first may be left behind if the second is refused. */
    method AddFriend(usrId: int, frdId: int) returns (ok: bool)
      modifies this
      ensures (tables, ok) == Tables.AddFriend(old(tables), usrId, frdId)
    {
      var first := InsertFriend(tables, usrId, frdId);
      if first.None? {
        return false;
      }
      tables := first.value;
      var second := InsertFriend(tables, frdId, usrId);
      if second.None? {
        return false;
      }
      tables := second.value;
      return true;
    }

    method DeleteFriend(usrId: int, frdId: int)
      modifies this
      ensures tables == Tables.DeleteFriend(old(tables), usrId, frdId)
    {
      tables := tables.(friends := Select(tables.friends, (r: (int, int)) => r != (usrId, frdId)));
      tables := tables.(friends := Select(tables.friends, (r: (int, int)) => r != (frdId, usrId)));
    }

    // ---------------------------------------------------------------- groups

    /** The members as a JSON value: null, or an array copied element by element. */
    method QueryGroupMember(grpId: int) returns (ok: bool, members: MemberColumn)
      ensures ok <==> grpId in tables.groups
      ensures ok ==> Members(members) == Members(tables.groups[grpId].column)
      ensures members == Column(Members(members))
    {
      if grpId !in tables.groups {
        return false, JsonNull;
      }
      var row := tables.groups[grpId].column;
      if row.SqlNull? {
        return true, JsonNull;
      }
      var memArr, tmpArr := Members(row), [];
      for i := 0 to |memArr|
        invariant tmpArr == memArr[..i]
      {
        tmpArr := tmpArr + [memArr[i]];
      }
      assert memArr[..|memArr|] == memArr;
      return true, Column(tmpArr);
    }

    method QueryGroup(grpId: int) returns (found: bool)
      ensures found <==> grpId in tables.groups
    {
      found := grpId in tables.groups;
    }

    /** Leaves the caller's variable as it was when there is no such group. */
    method QueryGroupLeader(grpId: int, leaderId: int) returns (leader: int)
      ensures leader == if grpId in tables.groups then tables.groups[grpId].leader else leaderId
    {
      leader := if grpId in tables.groups then tables.groups[grpId].leader else leaderId;
    }

    method AddGroup(leaderId: int, grpId: int, members: MemberColumn)
      modifies this
      ensures tables == Tables.AddGroup(old(tables), leaderId, grpId, members)
    {
      tables := Tables.AddGroup(tables, leaderId, grpId, members);
    }

    method DeleteGroup(grpId: int)
      modifies this
      ensures tables == Tables.DeleteGroup(old(tables), grpId)
    {
      tables := Tables.DeleteGroup(tables, grpId);
    }

    method UpdateGroupMember(grpId: int, members: MemberColumn)
      modifies this
      ensures tables == Tables.UpdateGroupMember(old(tables), grpId, members)
    {
      tables := Tables.UpdateGroupMember(tables, grpId, members);
    }

    method AddUserInGroup(usrId: int, grpId: int)
      modifies this
      ensures tables == Tables.AddUserInGroup(old(tables), usrId, grpId)
    {
      tables := Tables.AddUserInGroup(tables, usrId, grpId);
    }

    method DeleteUserInGroup(usrId: int, grpId: int)
      modifies this
      ensures tables == Tables.DeleteUserInGroup(old(tables), usrId, grpId)
    {
      tables := Tables.DeleteUserInGroup(tables, usrId, grpId);
    }

    // ---------------------------------------------------------------- offline messages

    method AddOfflineMsg(r: Row) returns (ok: bool)
      modifies this
      ensures ok <==> RowAllowed(old(tables), r)
      ensures tables == Tables.AddOfflineMsg(old(tables), r)
    {
      ok := RowAllowed(tables, r);
      tables := Tables.AddOfflineMsg(tables, r);
    }

    method DeleteOfflineMsg(usrId: int)
      modifies this
      ensures tables == Tables.DeleteOfflineMsg(old(tables), usrId)
    {
      tables := Tables.DeleteOfflineMsg(tables, usrId);
    }

    /** The first rows by time, copied one by one; false when there are none. */
    method QueryOfflineMsg(sender: int, receiver: int, groupId: int) returns (ok: bool, msgs: seq<Row>)
      ensures msgs == if groupId == 0 then QueryFriendRows(tables, sender, receiver)
                      else Limit(ByTime(In(tables, groupId, receiver)), GROUP_LIMIT)
      ensures ok <==> msgs != []
    {
      var res;
      if groupId == 0 {
        res := QueryFriendRows(tables, sender, receiver);
      } else {
        res := Limit(ByTime(In(tables, groupId, receiver)), GROUP_LIMIT);
      }
      msgs := [];
      if |res| == 0 {
        return false, msgs;
      }
      for i := 0 to |res|
        invariant msgs == res[..i]
      {
        msgs := msgs + [res[i]];
      }
      assert res[..|res|] == res;
      return true, msgs;
    }

    // ---------------------------------------------------------------- chat objects

    /** Nothing to do if it is there already. */
    method AddChatObject(c: Chat)
      modifies this
      ensures tables == Tables.AddChatObject(old(tables), c)
    {
      if c in tables.chats {
        return;
      }
      if ChatAllowed(tables, c) {
        tables := tables.(chats := tables.chats + [c]);
      }
    }

    method DeleteChatObject(c: Chat)
      modifies this
      ensures tables == Tables.DeleteChatObject(old(tables), c)
    {
      tables := Tables.DeleteChatObject(tables, c);
    }

    /** The other sides of the user's chat objects, friend or group, row by row. */
    method QueryChatObjectIDList(usrId: int) returns (ids: seq<int>)
      ensures ids == ChatIds(tables.chats, usrId)
    {
      hide ChatIds;
      var chats := tables.chats;
      ids := [];
      assert chats[0..] == chats;
      for i := 0 to |chats|
        invariant ids + ChatIds(chats[i..], usrId) == ChatIds(chats, usrId)
      {
        ghost var rest := ChatIds(chats[i + 1..], usrId);
        ChatIdsFrom(chats, i, usrId);
        if chats[i].usr == usrId {
          var side := match chats[i] case FriendChat(_, frd) => frd case GroupChat(_, grp) => grp;
          assert ids + ([side] + rest) == (ids + [side]) + rest;
          ids := ids + [side];
        }
      }
      ChatIdsFrom(chats, |chats|, usrId);
    }
  }
}
