/**
 What becomes of every text: pushed to a recipient who is online, or stored as a pending row
 until it is purged.  The books balance over every run.
 */
module Delivery {
  import opened Wrappers
  import opened Tables
  import opened FdTool
  import opened Framing
  import opened Handlers
  import Frames

  // ---------------------------------------------------------------- what a request offers, stores and purges

  /** A text that `u` may be sent: any group text, or one to him. */
  predicate Addressed(x: Msg, u: int) {
    x.group || x.receiver == u
  }

  /** The copies of the text `x` that a request means for `u`: one to the receiver, or one for
      each time the group map lists him, but none to the sender of a group text. */
  function Offered(s: Srv, r: Request, u: int, x: Msg): nat {
    if !r.Chatting? || r.msg != x then 0
    else if !x.group then (if x.receiver == u then 1 else 0)
    else if x.receiver in s.groups && u != x.sender then Count(s.groups[x.receiver], u)
    else 0
  }

  function RowFor(m: Msg, u: int): Row {
    Row(m.sender, u, if m.group then Some(m.receiver) else None, m.text, m.sendTime)
  }

  predicate Online(s: Srv, u: int) {
    FdOf(s.online, u) > 0
  }

  /** The copies whose row the foreign keys refuse. */
  function Refused(s: Srv, r: Request, u: int, x: Msg): nat {
    if !Online(s, u) && !RowAllowed(s.db, RowFor(x, u)) then Offered(s, r, u, x) else 0
  }

  /** The rows that a request is there to remove: 606 those of the user, 601 those of both, 603
      those of the user, of every member, and of the group. */
  predicate Purges(d: Db, r: Request, row: Row) {
    match r
    case PurgeOffline(u) => row.frd == u
    case Unfriend(u, f) => row.frd == u || row.frd == f
    case DissolveGroup(u, g) =>
      row.frd == u || (g in d.groups && (row.frd in Members(d.groups[g].column) || row.grp == Some(g)))
    case _ => false
  }

  /** How often the text went out to `u`. */
  function Pushed(sent: seq<Sent>, u: int, x: Msg): nat {
    if sent == [] then 0
    else (if sent[0].packet == Text(u, x) then 1 else 0) + Pushed(sent[1..], u, x)
  }

  /** How often it is pending for him. */
  function Waiting(rows: seq<Row>, u: int, x: Msg): nat {
    Count(rows, RowFor(x, u))
  }

  /** How many of those a request removes. */
  function Purged(d: Db, r: Request, u: int, x: Msg): nat {
    if Purges(d, r, RowFor(x, u)) then Waiting(d.offline, u, x) else 0
  }

  // ---------------------------------------------------------------- sequences

  lemma {:induction false} PushedAppend(a: seq<Sent>, last: Sent, u: int, x: Msg)
    ensures Pushed(a + [last], u, x) == Pushed(a, u, x) + (if last.packet == Text(u, x) then 1 else 0)
  {
    if a == [] {
      assert [last][1..] == [];
    } else {
      assert (a + [last])[1..] == a[1..] + [last];
      PushedAppend(a[1..], last, u, x);
    }
  }

  lemma WaitingAppend(a: seq<Row>, last: Row, u: int, x: Msg)
    ensures Waiting(a + [last], u, x) == Waiting(a, u, x) + (if last == RowFor(x, u) then 1 else 0)
  {
    CountAppend(a, [last], RowFor(x, u));
    assert [last][1..] == [];
  }

  lemma {:induction false} SelectSame<T(!new)>(rows: seq<T>, p: T -> bool, q: T -> bool)
    requires forall x :: p(x) == q(x)
    ensures Select(rows, p) == Select(rows, q)
  {
    if rows != [] {
      SelectSame(rows[1..], p, q);
    }
  }

  lemma {:induction false} SelectEverything<T(!new)>(rows: seq<T>, p: T -> bool)
    requires forall x :: p(x)
    ensures Select(rows, p) == rows
  {
    if rows != [] {
      SelectEverything(rows[1..], p);
    }
  }

  // ---------------------------------------------------------------- purging

  /** Deleting in two steps. */
  lemma {:induction false} KeepBoth(rows: seq<Row>, p: Row -> bool, q: Row -> bool, both: Row -> bool)
    requires forall x :: both(x) <==> p(x) && q(x)
    ensures Select(Select(rows, p), q) == Select(rows, both)
  {
    if rows != [] {
      var rest := Select(rows[1..], p);
      KeepBoth(rows[1..], p, q, both);
      if p(rows[0]) {
        assert Select(rows, p) == [rows[0]] + rest;
        assert ([rows[0]] + rest)[1..] == rest;
      } else {
        assert [] + rest == rest;
      }
    }
  }

  lemma {:induction false} DismissPurges(s: Srv, members: seq<int>, g: int)
    ensures Dismiss(s, members, g).db.offline == Select(s.db.offline, (x: Row) => x.frd !in members)
    decreases |members|
  {
    hide Select;
    if members == [] {
      SelectEverything(s.db.offline, (x: Row) => x.frd !in members);
    } else {
      var s1 := Push(s, members[0], Reply(603, true));
      var s2 := s1.(db := DeleteOfflineMsg(DeleteUserInGroup(s1.db, members[0], g), members[0]));
      DismissPurges(s2, members[1..], g);
      KeepBoth(s.db.offline, (x: Row) => x.frd != members[0], (x: Row) => x.frd !in members[1..],
               (x: Row) => x.frd !in members);
    }
  }

  lemma DissolvePurges(s: Srv, fd: int, usr: int, g: int)
    ensures HandleDissolveGroup(s, fd, usr, g).db.offline
         == Select(s.db.offline, (x: Row) => !Purges(s.db, DissolveGroup(usr, g), x))
  {
    hide Select, Dismiss;
    var keep := (x: Row) => !Purges(s.db, DissolveGroup(usr, g), x);
    var s1 := Send(s, fd, Reply(603, true));
    var s2 := s1.(db := DeleteOfflineMsg(DeleteUserInGroup(s1.db, usr, g), usr));
    var members := if g in s2.db.groups then Members(s2.db.groups[g].column) else [];
    var s3 := Dismiss(s2, members, g);
    DismissPurges(s2, members, g);
    var named := (x: Row) => x.frd != usr && x.frd !in members;
    KeepBoth(s.db.offline, (x: Row) => x.frd != usr, (x: Row) => x.frd !in members, named);
    assert s3.db.offline == Select(s.db.offline, named);
    if g in s.db.groups {
      KeepBoth(s.db.offline, named, (x: Row) => x.grp != Some(g), keep);
    } else {
      SelectSame(s.db.offline, named, keep);
    }
  }

  lemma OfflineAfterOthers(s: Srv, fd: int, r: Request)
    requires !r.Chatting?
    ensures Handle(s, fd, r).db.offline == Select(s.db.offline, (x: Row) => !Purges(s.db, r, x))
  {
    hide Select, HandleDissolveGroup, HandleCreateGroup, Purges;
    var keep := (x: Row) => !Purges(s.db, r, x);
    PurgesMeans(s.db, r);
    match r {
      case PurgeOffline(u) =>
        SelectSame(s.db.offline, (x: Row) => x.frd != u, keep);
      case Unfriend(u, f) =>
        KeepBoth(s.db.offline, (x: Row) => x.frd != u, (x: Row) => x.frd != f, keep);
      case DissolveGroup(u, g) => DissolvePurges(s, fd, u, g);
      case _ =>
        SelectEverything(s.db.offline, keep);
        Frames.Frame(s, fd, r);
    }
  }

  lemma PurgesMeans(d: Db, r: Request)
    ensures r.PurgeOffline? ==> forall x :: Purges(d, r, x) == (x.frd == r.usr)
    ensures r.Unfriend? ==> forall x :: Purges(d, r, x) == (x.frd == r.usr || x.frd == r.frd)
    ensures !r.PurgeOffline? && !r.Unfriend? && !r.DissolveGroup? ==> forall x :: !Purges(d, r, x)
  {
  }

  lemma WaitingAfterSelect(d: Db, r: Request, u: int, x: Msg)
    ensures Waiting(Select(d.offline, (y: Row) => !Purges(d, r, y)), u, x) + Purged(d, r, u, x)
         == Waiting(d.offline, u, x)
  {
    hide Purges;
    CountSelect(d.offline, (y: Row) => !Purges(d, r, y), RowFor(x, u));
  }

  // ---------------------------------------------------------------- chatting

  /** One member's turn: a push, or a row and a chat object, or nothing. */
  lemma DeliverEffect(s: Srv, m: Msg, member: int, u: int, x: Msg)
    requires m.group && Addressed(x, u)
    ensures var t := Deliver(s, m, member);
            var mine := if m == x && member == u && u != m.sender then 1 else 0;
            && Pushed(t.sent, u, x) == Pushed(s.sent, u, x) + (if Online(s, u) then mine else 0)
            && Waiting(t.db.offline, u, x) == Waiting(s.db.offline, u, x)
                 + (if !Online(s, u) && RowAllowed(s.db, RowFor(x, u)) then mine else 0)
            && t.online == s.online && t.db.users == s.db.users && t.db.groups == s.db.groups
  {
    hide Pushed, Waiting;
    if member != m.sender {
      if Online(s, member) {
        PushedAppend(s.sent, Sent(FdOf(s.online, member), Text(member, m)), u, x);
      } else {
        WaitingAppend(s.db.offline, RowFor(m, member), u, x);
      }
    }
  }

  /** The fan-out treats every occurrence of a member on the list alike, whatever the length of
      the list: a push if he is online, else a stored row, and nothing for the sender. */
  lemma {:induction false} FanOutEffect(s: Srv, m: Msg, members: seq<int>, u: int, x: Msg)
    requires m.group && Addressed(x, u)
    ensures var t := FanOut(s, m, members);
            var mine := if m == x && u != m.sender then Count(members, u) else 0;
            && Pushed(t.sent, u, x) == Pushed(s.sent, u, x) + (if Online(s, u) then mine else 0)
            && Waiting(t.db.offline, u, x) == Waiting(s.db.offline, u, x)
                 + (if !Online(s, u) && RowAllowed(s.db, RowFor(x, u)) then mine else 0)
    decreases |members|
  {
    hide Deliver, RowFor, Pushed, Waiting;
    if members != [] {
      var t := Deliver(s, m, members[0]);
      DeliverEffect(s, m, members[0], u, x);
      FanOutEffect(t, m, members[1..], u, x);
    }
  }

  lemma ChattingBalance(s: Srv, fd: int, m: Msg, u: int, x: Msg)
    requires Addressed(x, u)
    ensures var t := HandleChatting(s, fd, m);
            Offered(s, Chatting(m), u, x) + Pushed(s.sent, u, x) + Waiting(s.db.offline, u, x) ==
            Pushed(t.sent, u, x) + Waiting(t.db.offline, u, x) + Refused(s, Chatting(m), u, x)
  {
    hide ChatAllowed, Pushed, Waiting, FanOut;
    var s1 := s.(db := AddChatObject(s.db, FirstChat(m)));
    if m.group {
      if m.receiver in s1.groups {
        FanOutEffect(s1, m, s1.groups[m.receiver], u, x);
      } else {
        PushedAppend(s.sent, Sent(fd, Reply(504, false)), u, x);
      }
    } else {
      PushedAppend(s.sent, Sent(FdOf(s.online, m.receiver), Text(m.receiver, m)), u, x);
      WaitingAppend(s.db.offline, RowFor(m, m.receiver), u, x);
    }
  }

  /** Texts are added behind those that are pending, and none is removed. */
  lemma {:induction false} FanOutOnlyAdds(s: Srv, m: Msg, members: seq<int>)
    ensures s.db.offline <= FanOut(s, m, members).db.offline
    decreases |members|
  {
    hide Deliver;
    if members != [] {
      var t := Deliver(s, m, members[0]);
      DeliverOnlyAdds(s, m, members[0]);
      FanOutOnlyAdds(t, m, members[1..]);
      assert s.db.offline <= t.db.offline <= FanOut(t, m, members[1..]).db.offline;
    }
  }

  lemma DeliverOnlyAdds(s: Srv, m: Msg, member: int)
    ensures s.db.offline <= Deliver(s, m, member).db.offline
  {
    hide ChatAllowed, RowAllowed;
  }

  lemma ChattingOnlyAdds(s: Srv, fd: int, m: Msg)
    ensures s.db.offline <= HandleChatting(s, fd, m).db.offline
  {
    hide FanOut, ChatAllowed, RowAllowed;
    var s1 := s.(db := AddChatObject(s.db, FirstChat(m)));
    if m.group && m.receiver in s1.groups {
      FanOutOnlyAdds(s1, m, s1.groups[m.receiver]);
    }
  }

  // ---------------------------------------------------------------- the balance

  /** Texts are pushed by 503 only. */
  lemma OthersPushNoText(s: Srv, fd: int, r: Request, u: int, x: Msg)
    requires !r.Chatting?
    ensures Pushed(Handle(s, fd, r).sent, u, x) == Pushed(s.sent, u, x)
  {
    hide Pushed, Select, AddFriend, AddUserApply, Handle, PushAll, Dismiss;
    if r.SendFile? {
      SendFileSends(s, fd, r.receiver, r.sendState, r.data);
      var to := FdOf(s.online, r.receiver);
      assert r == SendFile(r.receiver, r.sendState, r.data);
      assert s.sent + [] == s.sent;
      PushedAppend(s.sent, Sent(to, FileData(r.receiver, r.data)), u, x);
      PushedAppend(s.sent, Sent(to, FileReturned(r.data)), u, x);
    } else {
      HandleSends(s, fd, r);
      NoTextNoPush(s.sent, Handle(s, fd, r).sent, u, x);
    }
  }

  /** `b` is `a` followed by packets that are neither texts nor files. */
  ghost predicate NoTexts(a: seq<Sent>, b: seq<Sent>) {
    a <= b && forall i | |a| <= i < |b| :: !b[i].packet.Text? && !b[i].packet.FileData?
  }

  lemma {:induction false} NoTextNoPush(a: seq<Sent>, b: seq<Sent>, u: int, x: Msg)
    requires NoTexts(a, b)
    ensures Pushed(b, u, x) == Pushed(a, u, x)
    decreases |b| - |a|
  {
    if a != b {
      NoTextNoPush(a, b[..|b| - 1], u, x);
      PushedAppend(b[..|b| - 1], b[|b| - 1], u, x);
      assert b == b[..|b| - 1] + [b[|b| - 1]];
    } else {
      assert a == b;
    }
  }

  lemma {:induction false} PushAllSends(s: Srv, users: seq<int>, p: Packet)
    requires !p.Text? && !p.FileData?
    ensures NoTexts(s.sent, PushAll(s, users, p).sent)
    decreases |users|
  {
    if users != [] {
      PushAllSends(Push(s, users[0], p), users[1..], p);
    }
  }

  lemma {:induction false} DismissSends(s: Srv, members: seq<int>, g: int)
    ensures NoTexts(s.sent, Dismiss(s, members, g).sent)
    decreases |members|
  {
    hide DeleteOfflineMsg, DeleteUserInGroup;
    if members != [] {
      var s1 := Push(s, members[0], Reply(603, true));
      DismissSends(s1.(db := DeleteOfflineMsg(DeleteUserInGroup(s1.db, members[0], g), members[0])), members[1..], g);
    }
  }

  lemma SendFileSends(s: Srv, fd: int, receiver: int, sendState: bool, data: Bytes)
    ensures var to, sent := FdOf(s.online, receiver), Handle(s, fd, SendFile(receiver, sendState, data)).sent;
            sent == s.sent + if to > 0 then [Sent(to, FileData(receiver, data))]
                             else if !sendState then [Sent(to, FileReturned(data))] else []
  {
  }

  lemma HandleSends(s: Srv, fd: int, r: Request)
    requires !r.Chatting? && !r.SendFile?
    ensures NoTexts(s.sent, Handle(s, fd, r).sent)
  {
    hide Select, Entries, NoTexts, HandleCreateGroup, HandleDissolveGroup, HandleAnswerFriend,
      HandleAnswerGroup, HandleUnfriend, HandleLeaveGroup, HandleRegister, HandleApply, AddChatObject,
      DeleteChatObject, DeleteOfflineMsg;
    match r {
      case CreateGroup(usr, leader, members, garbage, id) => FoundingSends(s, fd, usr, leader, members, garbage, id);
      case DissolveGroup(usr, g) => DissolvingSends(s, fd, usr, g);
      case AnswerFriend(usr, a, agree) => AnswerFriendSends(s, fd, usr, a, agree);
      case AnswerGroup(usr, a, agree, g) => AnswerGroupSends(s, fd, usr, a, agree, g);
      case _ => OneSent(s, fd, r);
    }
  }

  lemma OneSent(s: Srv, fd: int, r: Request)
    requires !r.Chatting? && !r.SendFile? && !r.CreateGroup? && !r.DissolveGroup? && !r.AnswerFriend? && !r.AnswerGroup?
    ensures NoTexts(s.sent, Handle(s, fd, r).sent)
  {
    hide Select, Entries, AddChatObject, DeleteChatObject, DeleteOfflineMsg, HandleRegister, HandleUnfriend,
      HandleLeaveGroup, HandleApply;
    match r {
      case Register(garbage, choice) => RegisterSends(s, fd, garbage, choice);
      case Unfriend(usr, frd) => UnfriendSends(s, fd, usr, frd);
      case LeaveGroup(usr, g) => LeaveGroupSends(s, fd, usr, g);
      case ApplyFor(usr, group, target, garbage) => ApplySends(s, fd, usr, group, target, garbage);
      case _ =>
    }
  }

  lemma RegisterSends(s: Srv, fd: int, garbage: int, choice: int)
    ensures NoTexts(s.sent, HandleRegister(s, fd, garbage, choice).sent)
  {
  }

  lemma UnfriendSends(s: Srv, fd: int, usr: int, frd: int)
    ensures NoTexts(s.sent, HandleUnfriend(s, fd, usr, frd).sent)
  {
    hide DeleteFriend, DeleteOfflineMsg;
  }

  lemma LeaveGroupSends(s: Srv, fd: int, usr: int, g: int)
    ensures NoTexts(s.sent, HandleLeaveGroup(s, fd, usr, g).sent)
  {
    hide Select, UpdateGroupMember, DeleteUserInGroup;
  }

  lemma ApplySends(s: Srv, fd: int, usr: int, group: bool, target: int, garbage: int)
    ensures NoTexts(s.sent, HandleApply(s, fd, usr, group, target, garbage).sent)
  {
    hide AddUserApply;
  }

  lemma AnswerFriendSends(s: Srv, fd: int, usr: int, a: int, agree: bool)
    ensures NoTexts(s.sent, HandleAnswerFriend(s, fd, usr, a, agree).sent)
  {
    hide AddFriend, DeleteUserApply;
  }

  lemma AnswerGroupSends(s: Srv, fd: int, usr: int, a: int, agree: bool, g: int)
    ensures NoTexts(s.sent, HandleAnswerGroup(s, fd, usr, a, agree, g).sent)
  {
    hide UpdateGroupMember, AddUserInGroup, DeleteUserApply;
  }

  lemma FoundingSends(s: Srv, fd: int, usr: int, leader: int, members: MemberColumn, garbage: int, id: int)
    ensures NoTexts(s.sent, HandleCreateGroup(s, fd, usr, leader, members, garbage, id).sent)
  {
    hide AddGroup, AddUserInGroup, AddAllInGroup, PushAll;
    if NewIdOf(s.db, garbage, id).Some? && Members(members) != [] {
      var d := AddUserInGroup(AddGroup(s.db, leader, id, members), leader, id);
      var s1 := Send(s.(db := d), fd, Notice(816));
      var ids := Members(members);
      var s2 := Push(s1.(db := AddAllInGroup(s1.db, ids, id)), usr, Reply(506, true));
      PushAllSends(s2, ids, Notice(903));
    }
  }

  lemma DissolvingSends(s: Srv, fd: int, usr: int, g: int)
    ensures NoTexts(s.sent, HandleDissolveGroup(s, fd, usr, g).sent)
  {
    hide Dismiss, DeleteOfflineMsg, DeleteUserInGroup, DeleteGroup;
    var s1 := Send(s, fd, Reply(603, true));
    var s2 := s1.(db := DeleteOfflineMsg(DeleteUserInGroup(s1.db, usr, g), usr));
    DismissSends(s2, if g in s2.db.groups then Members(s2.db.groups[g].column) else [], g);
  }

  /** One request: what was pushed or pending before, plus what is offered, is what is pushed,
      pending, purged or refused after. */
  lemma HandleBalance(s: Srv, fd: int, r: Request, u: int, x: Msg)
    requires Addressed(x, u)
    ensures var t := Handle(s, fd, r);
            Offered(s, r, u, x) + Pushed(s.sent, u, x) + Waiting(s.db.offline, u, x) ==
            Pushed(t.sent, u, x) + Waiting(t.db.offline, u, x) + Purged(s.db, r, u, x) + Refused(s, r, u, x)
  {
    hide Pushed, Waiting, Refused, Offered, HandleChatting, Select, RowFor;
    match r {
      case Chatting(m) => ChattingBalance(s, fd, m, u, x);
      case _ =>
        OthersPushNoText(s, fd, r, u, x);
        OfflineAfterOthers(s, fd, r);
        WaitingAfterSelect(s.db, r, u, x);
        OthersOfferNothing(s, r, u, x);
    }
  }

  lemma OthersOfferNothing(s: Srv, r: Request, u: int, x: Msg)
    ensures !r.Chatting? ==> Offered(s, r, u, x) == 0 && Refused(s, r, u, x) == 0
  {
  }

  function TotalOffered(s: Srv, calls: seq<Call>, u: int, x: Msg): nat
    decreases |calls|
  {
    if calls == [] then 0
    else Offered(s, calls[0].request, u, x) + TotalOffered(Handle(s, calls[0].fd, calls[0].request), calls[1..], u, x)
  }

  function TotalRefused(s: Srv, calls: seq<Call>, u: int, x: Msg): nat
    decreases |calls|
  {
    if calls == [] then 0
    else Refused(s, calls[0].request, u, x) + TotalRefused(Handle(s, calls[0].fd, calls[0].request), calls[1..], u, x)
  }

  function TotalPurged(s: Srv, calls: seq<Call>, u: int, x: Msg): nat
    decreases |calls|
  {
    if calls == [] then 0
    else Purged(s.db, calls[0].request, u, x) + TotalPurged(Handle(s, calls[0].fd, calls[0].request), calls[1..], u, x)
  }

  /** The account of every text and every recipient over every run: offered = newly pushed +
      newly pending + purged + refused. */
  lemma {:induction false} RunBalance(s: Srv, calls: seq<Call>, u: int, x: Msg)
    requires Addressed(x, u)
    ensures var t := Run(s, calls);
            TotalOffered(s, calls, u, x) + Pushed(s.sent, u, x) + Waiting(s.db.offline, u, x) ==
            Pushed(t.sent, u, x) + Waiting(t.db.offline, u, x)
              + TotalPurged(s, calls, u, x) + TotalRefused(s, calls, u, x)
    decreases |calls|
  {
    hide Pushed, Waiting, Purged, Refused, Offered, Handle;
    if calls != [] {
      HandleBalance(s, calls[0].fd, calls[0].request, u, x);
      RunBalance(Handle(s, calls[0].fd, calls[0].request), calls[1..], u, x);
    }
  }

  /** Nothing is refused to a registered user, in a group that exists. */
  lemma NothingRefused(s: Srv, r: Request, u: int, x: Msg)
    requires Acceptable(s.db, r) && u in s.db.users
    requires r.Chatting? && r.msg.group ==> r.msg.receiver in s.db.groups
    ensures Refused(s, r, u, x) == 0
  {
  }

  // ---------------------------------------------------------------- to whom

  predicate ForUser(p: Packet) {
    p.Text? || p.FileData?
  }

  /** `b` is `a` followed by packets of which every text and every piece of a file goes to its
      recipient's descriptor. */
  ghost predicate WellAddressed(online: Registry, a: seq<Sent>, b: seq<Sent>) {
    && a <= b
    && forall i | |a| <= i < |b| && ForUser(b[i].packet) :: b[i].fd == FdOf(online, b[i].packet.recipient) > 0
  }

  lemma {:induction false} FanOutIsWellAddressed(s: Srv, m: Msg, members: seq<int>)
    ensures WellAddressed(s.online, s.sent, FanOut(s, m, members).sent)
    decreases |members|
  {
    hide AddChatObject, AddOfflineMsg;
    if members != [] {
      FanOutIsWellAddressed(Deliver(s, m, members[0]), m, members[1..]);
    }
  }

  /** No request takes back what was sent, and a text or a piece of a file goes to the descriptor
      registered for its recipient at that moment and to no other. */
  lemma TextsGoToTheirRecipient(s: Srv, fd: int, r: Request)
    ensures WellAddressed(s.online, s.sent, Handle(s, fd, r).sent)
  {
    hide AddChatObject, AddOfflineMsg, FanOut, Handle;
    if r.Chatting? {
      var m := r.msg;
      var s1 := s.(db := AddChatObject(s.db, FirstChat(m)));
      if m.group && m.receiver in s1.groups {
        FanOutIsWellAddressed(s1, m, s1.groups[m.receiver]);
      }
      HandleIsChatting(s, fd, m);
    } else if r.SendFile? {
      SendFileSends(s, fd, r.receiver, r.sendState, r.data);
    } else {
      HandleSends(s, fd, r);
    }
  }

  /** Rows leave the offline table only by the requests that name their recipient or dissolve
      their group, and 503 only adds rows behind; all others stay in place and in order. */
  lemma OfflineAfter(s: Srv, fd: int, r: Request)
    ensures var kept := Select(s.db.offline, (x: Row) => !Purges(s.db, r, x));
            && kept <= Handle(s, fd, r).db.offline
            && (!r.Chatting? ==> Handle(s, fd, r).db.offline == kept)
            && (r.Chatting? ==> kept == s.db.offline)
  {
    hide Handle, Select, Purges;
    if r.Chatting? {
      PurgesMeans(s.db, r);
      SelectEverything(s.db.offline, (x: Row) => !Purges(s.db, r, x));
      ChattingOnlyAdds(s, fd, r.msg);
      HandleIsChatting(s, fd, r.msg);
    } else {
      OfflineAfterOthers(s, fd, r);
    }
  }

  lemma HandleIsChatting(s: Srv, fd: int, m: Msg)
    ensures Handle(s, fd, Chatting(m)) == HandleChatting(s, fd, m)
  {
  }
}
