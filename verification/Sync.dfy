/**
 Fetching what was stored while a user was away: the client asks for its chat objects (811),
 if there are any for the pending texts (812), and if there are any has them deleted (606).
 When does this lose nothing?
 */
module Sync {
  import opened Wrappers
  import opened Tables
  import opened Handlers
  import Frames
  import opened Integrity
  import opened Delivery
  import opened Numbers
  import opened Limits
  import opened Effects

  // ---------------------------------------------------------------- every pending text has its chat object

  function ChatOf(r: Row): Chat {
    match r.grp
    case None => FriendChat(r.frd, r.sender)
    case Some(g) => GroupChat(r.frd, g)
  }

  /** Without this the 811 reply might be empty, or the 812 reply pass a text over. */
  ghost predicate Covered(d: Db) {
    forall r | r in d.offline :: ChatOf(r) in d.chats
  }

  /** Closing a chat window removes the chat object. */
  lemma CloseKeepsIff(d: Db, c: Chat)
    requires Covered(d)
    ensures Covered(DeleteChatObject(d, c)) <==> forall r | r in d.offline :: ChatOf(r) != c
  {
    var e := DeleteChatObject(d, c);
    if r :| r in d.offline && ChatOf(r) == c {
      assert r in e.offline && ChatOf(r) !in e.chats;
    }
  }

  lemma {:induction false} FanOutCovers(s: Srv, m: Msg, members: seq<int>)
    requires Covered(s.db) && m.group
    ensures Covered(FanOut(s, m, members).db)
    decreases |members|
  {
    if members != [] {
      FanOutCovers(Deliver(s, m, members[0]), m, members[1..]);
    }
  }

  lemma ChattingCovers(s: Srv, fd: int, m: Msg)
    requires Covered(s.db)
    ensures Covered(HandleChatting(s, fd, m).db)
  {
    hide FanOut;
    var s1 := s.(db := AddChatObject(s.db, FirstChat(m)));
    assert Covered(s1.db);
    if m.group && m.receiver in s1.groups {
      FanOutCovers(s1, m, s1.groups[m.receiver]);
    }
  }

  lemma DissolveCovers(s: Srv, fd: int, usr: int, g: int)
    requires Covered(s.db) && Referential(s.db)
    ensures Covered(HandleDissolveGroup(s, fd, usr, g).db)
  {
    hide Referential, Dismiss;
    var e := HandleDissolveGroup(s, fd, usr, g).db;
    DissolvePurges(s, fd, usr, g);
    DissolvedWithoutTrace(s, fd, usr, g);
    var s1 := Send(s, fd, Reply(603, true));
    var s2 := s1.(db := DeleteOfflineMsg(DeleteUserInGroup(s1.db, usr, g), usr));
    var members := if g in s2.db.groups then Members(s2.db.groups[g].column) else [];
    var s3 := Dismiss(s2, members, g);
    assert s3.db.chats == s.db.chats && e == DeleteGroup(s3.db, g);
    forall r | r in e.offline
      ensures ChatOf(r) in e.chats
    {
      assert r in s.db.offline;
      assert r.grp != Some(g);
    }
  }

  /** The condition on a request, checkable before it is made: a chat is closed only when
      nothing is pending for it. */
  ghost predicate ClosesNothingPending(d: Db, r: Request) {
    r.CloseChat? ==> forall x | x in d.offline :: ChatOf(x) != r.chat.(usr := r.usr)
  }

  /** Per request: the cover survives if and only if the condition is met. */
  lemma HandleCoversIff(s: Srv, fd: int, r: Request)
    requires Covered(s.db) && Referential(s.db)
    ensures Covered(Handle(s, fd, r).db) <==> ClosesNothingPending(s.db, r)
  {
    hide Covered, Referential, Select, HandleRegister, HandleCreateGroup, HandleDissolveGroup, HandleChatting,
      HandleAnswerFriend, HandleApply, HandleAnswerGroup, HandleUnfriend, HandleLeaveGroup, AddChatObject,
      DeleteChatObject, OfflineReply;
    match r {
      case Chatting(m) => ChattingCovers(s, fd, m);
      case DissolveGroup(usr, g) => DissolveCovers(s, fd, usr, g);
      case CloseChat(usr, c) => CloseKeepsIff(s.db, c.(usr := usr));
      case OpenChat(usr, c) => OpenCovers(s.db, c.(usr := usr));
      case _ =>
        OthersCover(s, fd, r);
    }
  }

  lemma OthersCover(s: Srv, fd: int, r: Request)
    requires Covered(s.db) && !Frames.TouchesChats(r)
    ensures Covered(Handle(s, fd, r).db)
  {
    hide Covered, Handle, Select, Purges;
    OfflineAfterOthers(s, fd, r);
    Frames.Frame(s, fd, r);
    FewerRows(s.db, Handle(s, fd, r).db, (x: Row) => !Purges(s.db, r, x));
  }

  lemma OpenCovers(d: Db, c: Chat)
    requires Covered(d)
    ensures Covered(AddChatObject(d, c))
  {
  }

  lemma FewerRows(d: Db, e: Db, keep: Row -> bool)
    requires Covered(d) && e.chats == d.chats && e.offline == Select(d.offline, keep)
    ensures Covered(e)
  {
  }

  ghost predicate AllCloseNothingPending(s: Srv, calls: seq<Call>)
    decreases |calls|
  {
    calls == [] ||
    (ClosesNothingPending(s.db, calls[0].request)
     && AllCloseNothingPending(Handle(s, calls[0].fd, calls[0].request), calls[1..]))
  }

  /** Over every run in which chats are closed only after a sync, every pending text has its
      chat object. */
  lemma {:induction false} RunCovers(s: Srv, calls: seq<Call>)
    requires Covered(s.db) && Referential(s.db) && AllCloseNothingPending(s, calls)
    ensures Covered(Run(s, calls).db) && Referential(Run(s, calls).db)
    decreases |calls|
  {
    hide Covered, Referential, Handle, ClosesNothingPending;
    if calls != [] {
      HandleKeepsReferential(s, calls[0].fd, calls[0].request);
      HandleCoversIff(s, calls[0].fd, calls[0].request);
      RunCovers(Handle(s, calls[0].fd, calls[0].request), calls[1..]);
    }
  }

  // ---------------------------------------------------------------- the replies

  /** At most 50 texts pending from anyone and 100 in any group. */
  ghost predicate WithinLimits(d: Db, usr: int) {
    && (forall s :: |From(d, s, usr)| <= FRIEND_LIMIT)
    && (forall g :: |In(d, g, usr)| <= GROUP_LIMIT)
  }

  /** Each pending group text is looked up as its group's, or else as its sender's. */
  ghost predicate Tellable(d: Db, usr: int) {
    forall r | r in d.offline && r.frd == usr && r.grp.Some? ::
      FoundAsGroup(d, r) || r.sender in ChatIds(d.chats, usr)
  }

  lemma DisjointIsTellable(d: Db, usr: int)
    requires Referential(d) && Disjoint(d)
    ensures Tellable(d, usr)
  {
    hide Referential;
    forall r | r in d.offline && r.frd == usr && r.grp.Some?
      ensures FoundAsGroup(d, r)
    {
      RowExists(d, r);
      var g := r.grp.value;
      assert g in d.groups;
    }
  }

  lemma CoveredMeans(d: Db, r: Row)
    requires Covered(d) && r in d.offline
    ensures ChatOf(r) in d.chats && Side(ChatOf(r)) in ChatIds(d.chats, r.frd)
  {
  }

  /** Within the limits a pending text is returned if and only if it can be looked up. */
  lemma WithinLimitsReturnedIff(d: Db, usr: int, r: Row)
    requires Referential(d) && Covered(d) && WithinLimits(d, usr)
    requires r in d.offline && r.frd == usr
    ensures Returned(OfflineReply(d, usr).entries, r)
       <==> r.grp.None? || FoundAsGroup(d, r) || r.sender in ChatIds(d.chats, usr)
  {
    hide Referential, Covered, OfflineReply, Select, ByTime, Limit, ChatIds;
    ReturnedExactly(d, usr, r);
    CoveredMeans(d, r);
    FromMeans(d, r.sender, usr, r);
    LimitCompleteIff(From(d, r.sender, usr), FRIEND_LIMIT);
    if r.grp.Some? {
      FromMeans(d, r.grp.value, usr, r);
      LimitCompleteIff(In(d, r.grp.value, usr), GROUP_LIMIT);
    }
  }

  /** The 811 reply lists a chat object if any text is pending for the user, and 812 returns no row
      that is not; and it returns every text that is if and only if each can be looked up. */
  lemma RepliesAreCompleteIff(d: Db, usr: int)
    requires Referential(d) && Covered(d) && WithinLimits(d, usr)
    ensures (forall r | r in d.offline && r.frd == usr :: Returned(OfflineReply(d, usr).entries, r))
       <==> Tellable(d, usr)
    ensures forall e, r | e in OfflineReply(d, usr).entries && r in e.rows :: r in d.offline && r.frd == usr
    ensures (exists r :: r in d.offline && r.frd == usr) ==>
              Select(d.chats, (c: Chat) => c.usr == usr) != [] && OfflineReply(d, usr).state
  {
    hide Referential, Covered, WithinLimits, ChatIds, EntryFor, FoundAsGroup;
    forall r | r in d.offline && r.frd == usr
      ensures Returned(OfflineReply(d, usr).entries, r)
         <==> r.grp.None? || FoundAsGroup(d, r) || r.sender in ChatIds(d.chats, usr)
      ensures ChatOf(r) in Select(d.chats, (c: Chat) => c.usr == usr)
      ensures ChatIds(d.chats, usr) != []
    {
      WithinLimitsReturnedIff(d, usr, r);
      CoveredMeans(d, r);
    }
  }

  // ---------------------------------------------------------------- the client's side of it

  /** What the client does on an 811 reply. */
  function OnChatList(usr: int, p: Packet): Option<Request>
    requires p.ChatList?
  {
    if p.chats == [] then None else Some(ListOffline(usr))
  }

  /** The packet that the server sends on a request of the user's. */
  function Answered(s: Srv, fd: int, r: Request): Option<Packet> {
    var t := Handle(s, fd, r);
    if |t.sent| == |s.sent| + 1 && s.sent <= t.sent && t.sent[|s.sent|].fd == fd
    then Some(t.sent[|s.sent|].packet) else None
  }

  /** What the client does on an 812 reply. */
  function OnMsgList(usr: int, p: Packet): Option<Request>
    requires p.MsgList?
  {
    if !p.state || p.entries == [] then None else Some(PurgeOffline(usr))
  }

  /** The client asks for the deletion exactly when some text that is pending is looked up, however
      many there are. */
  lemma ClientPurgesIff(d: Db, usr: int)
    requires Referential(d)
    ensures OnMsgList(usr, OfflineReply(d, usr)) == Some(PurgeOffline(usr))
       <==> exists r :: r in d.offline && r.frd == usr && LookedUp(d, usr, r)
  {
    hide Referential, Entries, EntryFor, ChatIds, QueryFriendRows, QueryGroupRows;
    var ids := ChatIds(d.chats, usr);
    if r :| r in d.offline && r.frd == usr && LookedUp(d, usr, r) {
      var id := if r.sender in ids then r.sender else r.grp.value;
      EntryIsThere(d, usr, r, id);
      EntriesHave(d, usr, ids, id);
    }
    if Entries(d, usr, ids) != [] {
      EntriesArePending(d, usr, ids);
      var r := Entries(d, usr, ids)[0].rows[0];
      assert Returned(Entries(d, usr, ids), r);
      ReturnedExactly(d, usr, r);
    }
  }

  lemma EntriesArePending(d: Db, usr: int, ids: seq<int>)
    requires Entries(d, usr, ids) != []
    ensures var e := Entries(d, usr, ids)[0];
            e in Entries(d, usr, ids) && e.rows != [] && e.rows[0] in e.rows
            && e.rows[0] in d.offline && e.rows[0].frd == usr
  {
    var e := Entries(d, usr, ids)[0];
    assert e in Entries(d, usr, ids);
    assert e.rows[0] in e.rows;
  }

  lemma EntriesHave(d: Db, usr: int, ids: seq<int>, id: int)
    requires id in ids
    ensures EntryFor(d, usr, id) != [] ==> Entries(d, usr, ids) != []
  {
    if EntryFor(d, usr, id) != [] {
      assert EntryFor(d, usr, id)[0] in Entries(d, usr, ids);
    }
  }

  /** The query for it finds something. */
  lemma EntryIsThere(d: Db, usr: int, r: Row, id: int)
    requires Referential(d) && r in d.offline && r.frd == usr
    requires id == r.sender || (FoundAsGroup(d, r) && id == r.grp.value)
    ensures EntryFor(d, usr, id) != []
  {
    hide Referential, Select, ByTime;
    RowExists(d, r);
    FromMeans(d, id, usr, r);
    SomeRows(From(d, id, usr), FRIEND_LIMIT);
    SomeRows(In(d, id, usr), GROUP_LIMIT);
  }

  lemma SomeRows(rows: seq<Row>, n: nat)
    requires 0 < n
    ensures rows != [] ==> Limit(ByTime(rows), n) != []
  {
  }

  /** If anything is pending the server's answers take the client through all three requests; if
      nothing is, it deletes nothing. */
  lemma ClientGoesThrough(s: Srv, fd: int, usr: int)
    requires Referential(s.db) && Covered(s.db) && Tellable(s.db, usr)
    ensures var list, msgs := Answered(s, fd, ListChats(usr)), Answered(s, fd, ListOffline(usr));
            && list.Some? && list.value.ChatList? && msgs.Some? && msgs.value.MsgList?
            && ((exists r :: r in s.db.offline && r.frd == usr) ==>
                  && OnChatList(usr, list.value) == Some(ListOffline(usr))
                  && OnMsgList(usr, msgs.value) == Some(PurgeOffline(usr)))
            && ((forall r :: r in s.db.offline ==> r.frd != usr) ==> OnMsgList(usr, msgs.value) == None)
  {
    hide Referential, Covered, OfflineReply, ChatIds, FoundAsGroup, Select;
    var d := s.db;
    var list := Answered(s, fd, ListChats(usr));
    ClientPurgesIff(d, usr);
    ListChatsEffect(s, fd, usr, FriendChat(0, 0));
    ListOfflineEffect(s, fd, usr);
    forall r | r in d.offline && r.frd == usr
      ensures LookedUp(d, usr, r) && list.value.chats != []
    {
      CoveredMeans(d, r);
      ListChatsEffect(s, fd, usr, ChatOf(r));
      CountZero(d.chats, ChatOf(r));
      assert Count(list.value.chats, ChatOf(r)) > 0;
    }
  }

  // ---------------------------------------------------------------- between 812 and 606

  /** The user stays registered at every moment of the run. */
  ghost predicate StaysOnline(s: Srv, calls: seq<Call>, usr: int)
    decreases |calls|
  {
    Online(s, usr) && (calls == [] || StaysOnline(Handle(s, calls[0].fd, calls[0].request), calls[1..], usr))
  }

  /** No text for the user is stored, and no further copy of one. */
  ghost predicate NoMoreFor(usr: int, before: seq<Row>, after: seq<Row>) {
    forall x: Row | x.frd == usr :: Count(after, x) <= Count(before, x)
  }

  lemma NotMine(rows: seq<Row>, last: Row, usr: int)
    requires last.frd != usr
    ensures NoMoreFor(usr, rows, rows + [last])
  {
    forall x: Row | x.frd == usr
      ensures Count(rows + [last], x) <= Count(rows, x)
    {
      CountAppend(rows, [last], x);
      assert [last][1..] == [];
    }
  }

  lemma DeliverStoresForOthers(s: Srv, m: Msg, member: int, usr: int)
    requires Online(s, usr)
    ensures NoMoreFor(usr, s.db.offline, Deliver(s, m, member).db.offline)
  {
    hide RowAllowed, ChatAllowed, NoMoreFor;
    var r := Row(m.sender, member, Some(m.receiver), m.text, m.sendTime);
    NoMore(usr, s.db.offline);
    if member != usr {
      NotMine(s.db.offline, r, usr);
    }
  }

  lemma NoMore(usr: int, rows: seq<Row>)
    ensures NoMoreFor(usr, rows, rows)
  {
  }

  lemma NoMoreStill(usr: int, a: seq<Row>, b: seq<Row>, c: seq<Row>)
    requires NoMoreFor(usr, a, b) && NoMoreFor(usr, b, c)
    ensures NoMoreFor(usr, a, c)
  {
    forall x: Row | x.frd == usr
      ensures Count(c, x) <= Count(a, x)
    {
      assert Count(c, x) <= Count(b, x) <= Count(a, x);
    }
  }

  lemma {:induction false} FanOutStoresForOthers(s: Srv, m: Msg, members: seq<int>, usr: int)
    requires Online(s, usr)
    ensures NoMoreFor(usr, s.db.offline, FanOut(s, m, members).db.offline)
    decreases |members|
  {
    hide NoMoreFor, AddChatObject, RowAllowed;
    if members == [] {
      NoMore(usr, s.db.offline);
    } else {
      var t := Deliver(s, m, members[0]);
      DeliverStoresForOthers(s, m, members[0], usr);
      FanOutStoresForOthers(t, m, members[1..], usr);
      NoMoreStill(usr, s.db.offline, t.db.offline, FanOut(t, m, members[1..]).db.offline);
    }
  }

  lemma ChattingStoresForOthers(s: Srv, fd: int, m: Msg, usr: int)
    requires Online(s, usr)
    ensures NoMoreFor(usr, s.db.offline, HandleChatting(s, fd, m).db.offline)
  {
    hide FanOut, NoMoreFor, RowAllowed, ChatAllowed;
    var s1 := s.(db := AddChatObject(s.db, FirstChat(m)));
    NoMore(usr, s.db.offline);
    if m.group {
      if m.receiver in s1.groups {
        FanOutStoresForOthers(s1, m, s1.groups[m.receiver], usr);
      }
    } else if m.receiver != usr {
      NotMine(s.db.offline, Row(m.sender, m.receiver, None, m.text, m.sendTime), usr);
    }
  }

  /** Nothing is stored for a user who is online. */
  lemma NothingStoredOnline(s: Srv, fd: int, r: Request, usr: int)
    requires Online(s, usr)
    ensures NoMoreFor(usr, s.db.offline, Handle(s, fd, r).db.offline)
  {
    hide Handle, Select, Online;
    if r.Chatting? {
      ChattingStoresForOthers(s, fd, r.msg, usr);
      HandleIsChatting(s, fd, r.msg);
    } else {
      OfflineAfterOthers(s, fd, r);
      forall x: Row | x.frd == usr
        ensures Count(Handle(s, fd, r).db.offline, x) <= Count(s.db.offline, x)
      {
        CountSelect(s.db.offline, (y: Row) => !Purges(s.db, r, y), x);
      }
    }
  }

  lemma {:induction false} NothingStoredMeanwhile(s: Srv, calls: seq<Call>, usr: int)
    requires StaysOnline(s, calls, usr)
    ensures NoMoreFor(usr, s.db.offline, Run(s, calls).db.offline)
    decreases |calls|
  {
    hide Handle, Online, NoMoreFor;
    if calls == [] {
      NoMore(usr, s.db.offline);
    } else {
      var t := Handle(s, calls[0].fd, calls[0].request);
      NothingStoredOnline(s, calls[0].fd, calls[0].request, usr);
      NothingStoredMeanwhile(t, calls[1..], usr);
      NoMoreStill(usr, s.db.offline, t.db.offline, Run(t, calls[1..]).db.offline);
    }
  }

  // ---------------------------------------------------------------- nothing is lost

  /** Within the limits every copy of every pending text is returned, and no other text. */
  lemma EveryCopyIsReturned(d: Db, usr: int, r: Row)
    requires Referential(d) && Covered(d) && WithinLimits(d, usr) && Tellable(d, usr) && r.frd == usr
    ensures Copies(OfflineReply(d, usr).entries, r) >= Count(d.offline, r)
    ensures Returned(OfflineReply(d, usr).entries, r) <==> r in d.offline
  {
    hide Referential, Covered, Tellable, Entries, QueryFriendRows, QueryGroupRows, From, In, ChatIds, FoundAsGroup;
    var ids := ChatIds(d.chats, usr);
    CountZero(d.offline, r);
    ReturnedMeans(OfflineReply(d, usr).entries, r);
    if r in d.offline {
      CopiesReturned(d, usr, r);
      QueriesReturnAll(d, usr, r);
      CountZero(ids, r.sender);
      var n := Count(d.offline, r);
      AtLeast(Count(ids, r.sender), n);
      LookedUpWhere(d, usr, r);
      if r.grp.Some? && FoundAsGroup(d, r) {
        CountZero(ids, r.grp.value);
        AtLeast(Count(ids, r.grp.value), n);
      }
    } else {
      OnlyPendingReturned(d, usr);
    }
  }

  lemma AtLeast(k: nat, n: nat)
    ensures k * n >= 0 && (k > 0 ==> k * n >= n)
  {
  }

  lemma LookedUpWhere(d: Db, usr: int, r: Row)
    requires Covered(d) && Tellable(d, usr) && r in d.offline && r.frd == usr
    ensures var ids := ChatIds(d.chats, usr);
            || r.sender in ids
            || (r.grp.Some? && r.grp.value != 0 && FoundAsGroup(d, r) && r.grp.value in ids)
  {
    hide Covered, ChatIds;
    CoveredMeans(d, r);
  }

  lemma OnlyPendingReturned(d: Db, usr: int)
    ensures forall e, r | e in OfflineReply(d, usr).entries && r in e.rows :: r in d.offline && r.frd == usr
  {
    hide ChatIds, EntryFor;
  }

  /** The sync loses nothing: from a covered state in which users and groups have different
      numbers, over every run in which chats are closed only after a sync and no number is given
      out twice, and whatever the server handles between the 812 reply and the 606 request that it
      causes: a text that 606 deletes was returned if and only if it was pending when 812 was
      handled; and if the user stays registered in between, the reply has at least as many copies
      of every text as 606 deletes. */
  lemma SyncLosesNothing(s0: Srv, before: seq<Call>, fd: int, between: seq<Call>, usr: int, r: Row)
    requires Referential(s0.db) && Covered(s0.db) && AllCloseNothingPending(s0, before)
    requires Disjoint(s0.db) && AllKeepApart(s0, before)
    requires WithinLimits(Run(s0, before).db, usr) && r.frd == usr
    ensures var s := Run(s0, before);
            var t := Run(Handle(s, fd, ListOffline(usr)), between).db;
            var reply := OfflineReply(s.db, usr);
            && Handle(s, fd, ListOffline(usr)) == Send(s, fd, reply)
            && Count(DeleteOfflineMsg(t, usr).offline, r) == 0
            && (Returned(reply.entries, r) <==> r in s.db.offline)
            && (StaysOnline(Handle(s, fd, ListOffline(usr)), between, usr) ==>
                  Copies(reply.entries, r) >= Count(t.offline, r))
  {
    hide Referential, Covered, WithinLimits, Disjoint, StaysOnline, OfflineReply, Run, AllCloseNothingPending,
      AllKeepApart, Tellable, Select;
    RunCovers(s0, before);
    RunKeepsDisjoint(s0, before);
    var s := Run(s0, before);
    var s1 := Handle(s, fd, ListOffline(usr));
    DisjointIsTellable(s.db, usr);
    EveryCopyIsReturned(s.db, usr, r);
    CountSelect(Run(s1, between).db.offline, (x: Row) => x.frd != usr, r);
    if StaysOnline(s1, between, usr) {
      NothingStoredMeanwhile(s1, between, usr);
    }
  }
}
