/**
 What an 812 reply contains: which rows survive ORDER BY and LIMIT, and how often a pending row
 comes back, given that a group's text is also found by the query for its sender as a friend.
 */
module Limits {
  import opened Wrappers
  import opened Tables
  import opened Handlers
  import opened Integrity

  // ---------------------------------------------------------------- ORDER BY, LIMIT

  /** Sorting keeps the rows of any kind as many as they are. */
  lemma {:induction false} SameNumber(rows: seq<Row>, kind: Row -> bool)
    ensures |Select(ByTime(rows), kind)| == |Select(rows, kind)|
  {
    if rows != [] {
      SameNumber(rows[1..], kind);
      InsertOneMore(rows[0], ByTime(rows[1..]), kind);
    }
  }

  lemma {:induction false} InsertOneMore(r: Row, rows: seq<Row>, kind: Row -> bool)
    requires Ordered(rows)
    ensures |Select(Insert(r, rows), kind)| == |Select(rows, kind)| + if kind(r) then 1 else 0
  {
    if rows == [] || r.sendTime <= rows[0].sendTime {
      assert ([r] + rows)[1..] == rows;
    } else {
      InsertOneMore(r, rows[1..], kind);
      assert ([rows[0]] + Insert(r, rows[1..]))[1..] == Insert(r, rows[1..]);
    }
  }

  /** In an ordered table the rows before a time come first. */
  lemma {:induction false} CountUpTo(rows: seq<Row>, i: nat, t: int)
    requires Ordered(rows) && i < |rows| && rows[i].sendTime == t
    ensures |Select(rows, (x: Row) => x.sendTime < t)| <= i < |Select(rows, (x: Row) => x.sendTime <= t)|
  {
    if i > 0 {
      CountUpTo(rows[1..], i - 1, t);
    } else {
      NoneEarlier(rows, t);
    }
  }

  lemma {:induction false} NoneEarlier(rows: seq<Row>, t: int)
    requires forall x | x in rows :: t <= x.sendTime
    ensures Select(rows, (x: Row) => x.sendTime < t) == []
  {
    if rows != [] {
      NoneEarlier(rows[1..], t);
    }
  }

  lemma {:induction false} EarlierOrThen(rows: seq<Row>, t: int)
    ensures |Select(rows, (x: Row) => x.sendTime <= t)|
         == |Select(rows, (x: Row) => x.sendTime < t)| + |Select(rows, (x: Row) => x.sendTime == t)|
  {
    if rows != [] {
      EarlierOrThen(rows[1..], t);
    }
  }

  function Older(rows: seq<Row>, r: Row): nat {
    |Select(rows, (x: Row) => x.sendTime < r.sendTime)|
  }

  /** Sent before it or in the same second, itself included. */
  function NotNewer(rows: seq<Row>, r: Row): nat {
    |Select(rows, (x: Row) => x.sendTime <= r.sendTime)|
  }

  /** No other row of the table has its time. */
  predicate OnlyOne(rows: seq<Row>, r: Row) {
    |Select(rows, (x: Row) => x.sendTime == r.sendTime)| == 1
  }

  lemma OnlyOneMeans(rows: seq<Row>, r: Row)
    requires OnlyOne(rows, r)
    ensures NotNewer(rows, r) == Older(rows, r) + 1
  {
    EarlierOrThen(rows, r.sendTime);
  }

  /** Which rows survive, whatever rows share a time. */
  lemma LimitedBounds(rows: seq<Row>, r: Row, n: nat)
    requires r in rows
    ensures NotNewer(rows, r) <= n ==> r in Limit(ByTime(rows), n)
    ensures r in Limit(ByTime(rows), n) ==> Older(rows, r) < n
  {
    hide Select, ByTime;
    var sorted, t := ByTime(rows), r.sendTime;
    SortedHas(rows, r);
    SameNumber(rows, (x: Row) => x.sendTime < t);
    SameNumber(rows, (x: Row) => x.sendTime <= t);
    forall j | 0 <= j < |sorted| && sorted[j] == r
      ensures Older(rows, r) <= j < NotNewer(rows, r)
    {
      CountUpTo(sorted, j, t);
    }
    var i :| 0 <= i < |sorted| && sorted[i] == r;
  }

  lemma SortedHas(rows: seq<Row>, r: Row)
    ensures r in rows <==> r in ByTime(rows)
    ensures Ordered(ByTime(rows))
  {
  }

  // ---------------------------------------------------------------- how often a row is returned

  ghost predicate Returned(es: seq<Entry>, r: Row) {
    exists e :: e in es && r in e.rows
  }

  /** How often the row stands in the entries. */
  function Copies(es: seq<Entry>, r: Row): nat {
    if es == [] then 0 else Count(es[0].rows, r) + Copies(es[1..], r)
  }

  lemma {:induction false} ReturnedMeans(es: seq<Entry>, r: Row)
    ensures Returned(es, r) <==> Copies(es, r) > 0
  {
    if es != [] {
      CountZero(es[0].rows, r);
      ReturnedMeans(es[1..], r);
      if Copies(es, r) > 0 {
        if Count(es[0].rows, r) > 0 {
          assert es[0] in es;
        } else {
          var e :| e in es[1..] && r in e.rows;
          assert e in es;
        }
      }
    }
  }

  lemma {:induction false} CopiesAppend(a: seq<Entry>, b: seq<Entry>, r: Row)
    ensures Copies(a + b, r) == Copies(a, r) + Copies(b, r)
  {
    if a == [] {
      assert a + b == b;
    } else {
      assert (a + b)[1..] == a[1..] + b;
      CopiesAppend(a[1..], b, r);
    }
  }

  /** The row is a group's, and its number is taken for that group's when it is looked up. */
  predicate FoundAsGroup(d: Db, r: Row) {
    r.grp.Some? && r.grp.value !in d.users && r.grp.value != 0
  }

  /** The copies that one chat object of the user's contributes: those of the query for the
      sender, and those of the query for the group. */
  lemma EntryCopies(d: Db, usr: int, id: int, r: Row)
    requires Referential(d) && r in d.offline && r.frd == usr
    ensures Copies(EntryFor(d, usr, id), r)
         == (if id == r.sender then Count(QueryFriendRows(d, r.sender, usr), r) else 0)
            + (if FoundAsGroup(d, r) && id == r.grp.value then Count(QueryGroupRows(d, id, usr), r) else 0)
  {
    hide Referential, Select, ByTime, Limit, QueryFriendRows, QueryGroupRows, Count;
    RowExists(d, r);
    SingleEntry(id, false, QueryFriendRows(d, id, usr), r);
    SingleEntry(id, true, QueryGroupRows(d, id, usr), r);
    NotFound(d, usr, id, r);
  }

  lemma RowExists(d: Db, r: Row)
    requires Referential(d) && r in d.offline
    ensures r.sender in d.users && (r.grp.Some? ==> r.grp.value in d.groups)
  {
    assert RowAllowed(d, r);
  }

  lemma SingleEntry(id: int, group: bool, rows: seq<Row>, r: Row)
    ensures Copies(if rows == [] then [] else [Entry(id, group, rows)], r) == Count(rows, r)
  {
    if rows != [] {
      assert [Entry(id, group, rows)][1..] == [];
    }
  }

  /** The queries for others do not find it. */
  lemma NotFound(d: Db, usr: int, id: int, r: Row)
    ensures id != r.sender ==> Count(QueryFriendRows(d, id, usr), r) == 0
    ensures id != 0 && r.grp != Some(id) ==> Count(QueryGroupRows(d, id, usr), r) == 0
    ensures QueryGroupRows(d, 0, usr) == QueryFriendRows(d, 0, usr)
  {
    hide ByTime, Limit, Select, From, In;
    FromMeans(d, id, usr, r);
    LimitCompleteIff(From(d, id, usr), FRIEND_LIMIT);
    LimitCompleteIff(In(d, id, usr), GROUP_LIMIT);
    CountZero(QueryFriendRows(d, id, usr), r);
    CountZero(QueryGroupRows(d, id, usr), r);
  }

  lemma FromMeans(d: Db, id: int, usr: int, r: Row)
    ensures r in From(d, id, usr) <==> r in d.offline && r.sender == id && r.frd == usr
    ensures r in In(d, id, usr) <==> r in d.offline && r.frd == usr && r.grp == Some(id)
  {
  }

  lemma {:induction false} EntriesCopies(d: Db, usr: int, ids: seq<int>, r: Row)
    requires Referential(d) && r in d.offline && r.frd == usr
    ensures Copies(Entries(d, usr, ids), r)
         == Count(ids, r.sender) * Count(QueryFriendRows(d, r.sender, usr), r)
            + (if FoundAsGroup(d, r)
               then Count(ids, r.grp.value) * Count(QueryGroupRows(d, r.grp.value, usr), r) else 0)
  {
    hide Referential, EntryFor, QueryFriendRows, QueryGroupRows;
    if ids != [] {
      EntryCopies(d, usr, ids[0], r);
      CopiesAppend(EntryFor(d, usr, ids[0]), Entries(d, usr, ids[1..]), r);
      EntriesCopies(d, usr, ids[1..], r);
      OneMoreTime(ids, r.sender, Count(QueryFriendRows(d, r.sender, usr), r));
      if FoundAsGroup(d, r) {
        OneMoreTime(ids, r.grp.value, Count(QueryGroupRows(d, r.grp.value, usr), r));
      }
    }
  }

  lemma OneMoreTime(ids: seq<int>, x: int, n: nat)
    requires ids != []
    ensures Count(ids, x) * n == (if ids[0] == x then n else 0) + Count(ids[1..], x) * n
  {
  }

  /** The number of copies of every pending row in the 812 reply, exactly: as many as the queries
      for its sender and for its group return, for each chat object that stands for either. */
  lemma CopiesReturned(d: Db, usr: int, r: Row)
    requires Referential(d) && r in d.offline && r.frd == usr
    ensures var ids := ChatIds(d.chats, usr);
            Copies(OfflineReply(d, usr).entries, r) ==
            Count(ids, r.sender) * Count(QueryFriendRows(d, r.sender, usr), r)
            + (if FoundAsGroup(d, r)
               then Count(ids, r.grp.value) * Count(QueryGroupRows(d, r.grp.value, usr), r) else 0)
  {
    hide Referential, Entries, QueryFriendRows, QueryGroupRows;
    EntriesCopies(d, usr, ChatIds(d.chats, usr), r);
  }

  lemma {:induction false} CountInsert(r: Row, rows: seq<Row>, x: Row)
    requires Ordered(rows)
    ensures Count(Insert(r, rows), x) == Count(rows, x) + if r == x then 1 else 0
  {
    if rows == [] || r.sendTime <= rows[0].sendTime {
      assert ([r] + rows)[1..] == rows;
    } else {
      CountInsert(r, rows[1..], x);
      assert ([rows[0]] + Insert(r, rows[1..]))[1..] == Insert(r, rows[1..]);
    }
  }

  lemma {:induction false} CountByTime(rows: seq<Row>, x: Row)
    ensures Count(ByTime(rows), x) == Count(rows, x)
  {
    if rows != [] {
      CountByTime(rows[1..], x);
      CountInsert(rows[0], ByTime(rows[1..]), x);
    }
  }

  /** Within the limits a query returns each row as often as it is pending. */
  lemma QueriesReturnAll(d: Db, usr: int, r: Row)
    requires r.frd == usr
    ensures |From(d, r.sender, usr)| <= FRIEND_LIMIT ==>
              Count(QueryFriendRows(d, r.sender, usr), r) == Count(d.offline, r)
    ensures r.grp.Some? && r.grp.value != 0 && |In(d, r.grp.value, usr)| <= GROUP_LIMIT ==>
              Count(QueryGroupRows(d, r.grp.value, usr), r) == Count(d.offline, r)
  {
    hide Select, ByTime;
    CountByTime(From(d, r.sender, usr), r);
    CountSelect(d.offline, (x: Row) => x.sender == r.sender && x.frd == usr, r);
    if r.grp.Some? {
      var g := r.grp.value;
      CountByTime(In(d, g, usr), r);
      CountSelect(d.offline, (x: Row) => x.frd == usr && x.grp == Some(g), r);
    }
  }

  // ---------------------------------------------------------------- whether it is returned

  /** By the query for its sender as a friend. */
  predicate ByFriend(d: Db, usr: int, r: Row) {
    r.sender in ChatIds(d.chats, usr) && r in QueryFriendRows(d, r.sender, usr)
  }

  /** By the query for its group. */
  predicate ByGroup(d: Db, usr: int, r: Row) {
    FoundAsGroup(d, r) && r.grp.value in ChatIds(d.chats, usr) && r in QueryGroupRows(d, r.grp.value, usr)
  }

  /** The query for its sender or for its group is made. */
  predicate LookedUp(d: Db, usr: int, r: Row) {
    || r.sender in ChatIds(d.chats, usr)
    || (FoundAsGroup(d, r) && r.grp.value in ChatIds(d.chats, usr))
  }

  lemma ReturnedExactly(d: Db, usr: int, r: Row)
    requires Referential(d) && r in d.offline && r.frd == usr
    ensures Returned(OfflineReply(d, usr).entries, r) <==> ByFriend(d, usr, r) || ByGroup(d, usr, r)
  {
    hide Referential, Entries, QueryFriendRows, QueryGroupRows;
    var ids := ChatIds(d.chats, usr);
    CopiesReturned(d, usr, r);
    ReturnedMeans(OfflineReply(d, usr).entries, r);
    Positive(ids, r.sender, QueryFriendRows(d, r.sender, usr), r);
    if FoundAsGroup(d, r) {
      Positive(ids, r.grp.value, QueryGroupRows(d, r.grp.value, usr), r);
    }
  }

  lemma Positive(ids: seq<int>, id: int, rows: seq<Row>, r: Row)
    ensures Count(ids, id) * Count(rows, r) > 0 <==> id in ids && r in rows
    ensures Count(ids, id) * Count(rows, r) >= 0
  {
    CountZero(ids, id);
    CountZero(rows, r);
  }

  /** Bounds that hold whatever rows share a second. */
  lemma ReturnedBounds(d: Db, usr: int, r: Row)
    requires Referential(d) && r in d.offline && r.frd == usr
    ensures r.sender in ChatIds(d.chats, usr) && NotNewer(From(d, r.sender, usr), r) <= 50 ==>
              Returned(OfflineReply(d, usr).entries, r)
    ensures FoundAsGroup(d, r) && r.grp.value in ChatIds(d.chats, usr)
            && NotNewer(In(d, r.grp.value, usr), r) <= 100 ==>
              Returned(OfflineReply(d, usr).entries, r)
    ensures Returned(OfflineReply(d, usr).entries, r) ==>
              || (r.sender in ChatIds(d.chats, usr) && Older(From(d, r.sender, usr), r) < 50)
              || (FoundAsGroup(d, r) && r.grp.value in ChatIds(d.chats, usr)
                  && Older(In(d, r.grp.value, usr), r) < 100)
  {
    hide Referential, OfflineReply, ByTime, Limit, Older, NotNewer, ChatIds;
    ReturnedExactly(d, usr, r);
    FromMeans(d, r.sender, usr, r);
    LimitedBounds(From(d, r.sender, usr), r, FRIEND_LIMIT);
    if r.grp.Some? {
      FromMeans(d, r.grp.value, usr, r);
      LimitedBounds(In(d, r.grp.value, usr), r, GROUP_LIMIT);
    }
  }

  /** Exactly when a pending text is returned, if no other row of its sender or its group has its
      time: when the sender is among the user's chats and fewer than 50 of his rows are older, or
      the group is and fewer than 100 of its rows are.  Returned or not, 606 deletes it. */
  lemma ReturnedIff(d: Db, usr: int, r: Row)
    requires Referential(d) && r in d.offline && r.frd == usr
    requires OnlyOne(From(d, r.sender, usr), r) && (r.grp.Some? ==> OnlyOne(In(d, r.grp.value, usr), r))
    ensures Returned(OfflineReply(d, usr).entries, r)
       <==> || (r.sender in ChatIds(d.chats, usr) && Older(From(d, r.sender, usr), r) < 50)
            || (FoundAsGroup(d, r) && r.grp.value in ChatIds(d.chats, usr)
                && Older(In(d, r.grp.value, usr), r) < 100)
    ensures r !in DeleteOfflineMsg(d, usr).offline
  {
    hide Referential, OfflineReply, Older, NotNewer, OnlyOne, ChatIds;
    ReturnedBounds(d, usr, r);
    OnlyOneMeans(From(d, r.sender, usr), r);
    if r.grp.Some? {
      OnlyOneMeans(In(d, r.grp.value, usr), r);
    }
  }
}
