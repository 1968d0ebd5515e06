/**
 The server's tables, and each SQL statement it issues as a function on them.

 A table is the sequence of its rows in insertion order, except the user table and the id
 pool, which have a single unique column, and the group table with its unique group id.  The
 foreign keys of the schema decide whether an insertion happens; deleting a group cascades.
 */
module Tables {
  import opened Wrappers

  /** ec_groups.grp_members: SQL NULL, or JSON text. */
  datatype MemberColumn = SqlNull | JsonNull | JsonArray(ids: seq<int>)

  datatype Group = Group(leader: int, column: MemberColumn)

  datatype Chat =
    | FriendChat(usr: int, frd: int)
    | GroupChat(usr: int, grp: int)

  /** A pending text; `frd` is the recipient, also in a group. */
  datatype Row = Row(sender: int, frd: int, grp: Option<int>, text: int, sendTime: int)

  datatype Apply =
    | FriendApply(applicant: int, reviewer: int)
    | GroupApply(applicant: int, reviewer: int, grp: int)

  datatype Db = Db(
    users: set<int>,
    pool: set<int>,
    friends: seq<(int, int)>,
    groups: map<int, Group>,
    userGroups: seq<(int, int)>,    // user, group
    chats: seq<Chat>,
    offline: seq<Row>,
    applies: seq<Apply>)

  // ---------------------------------------------------------------- rows

  function Select<T(!new)>(rows: seq<T>, keep: T -> bool): (kept: seq<T>)
    ensures |kept| <= |rows|
    ensures forall r :: r in kept <==> r in rows && keep(r)
  {
    if rows == [] then [] else (if keep(rows[0]) then [rows[0]] else []) + Select(rows[1..], keep)
  }

  function Count<T(==)>(rows: seq<T>, x: T): nat {
    if rows == [] then 0 else (if rows[0] == x then 1 else 0) + Count(rows[1..], x)
  }

  lemma {:induction false} CountAppend<T>(a: seq<T>, b: seq<T>, x: T)
    ensures Count(a + b, x) == Count(a, x) + Count(b, x)
  {
    if a == [] {
      assert a + b == b;
    } else {
      assert (a + b)[1..] == a[1..] + b;
      CountAppend(a[1..], b, x);
    }
  }

  lemma {:induction false} CountSelect<T(!new)>(rows: seq<T>, keep: T -> bool, x: T)
    ensures Count(Select(rows, keep), x) == if keep(x) then Count(rows, x) else 0
  {
    if rows != [] {
      CountSelect(rows[1..], keep, x);
      CountAppend(if keep(rows[0]) then [rows[0]] else [], Select(rows[1..], keep), x);
      if keep(rows[0]) {
        assert [rows[0]][1..] == [];
      }
    }
  }

  lemma {:induction false} CountZero<T>(rows: seq<T>, x: T)
    ensures Count(rows, x) == 0 <==> x !in rows
  {
    if rows != [] {
      CountZero(rows[1..], x);
    }
  }

  // ---------------------------------------------------------------- friends

  /** None when a foreign key refuses the row. */
  function InsertFriend(d: Db, usr: int, frd: int): Option<Db> {
    if usr in d.users && frd in d.users then Some(d.(friends := d.friends + [(usr, frd)])) else None
  }

  /** Both rows of a friendship; the second statement may find its row refused after the first
      one went through. */
  function AddFriend(d: Db, usr: int, frd: int): (Db, bool) {
    match InsertFriend(d, usr, frd)
    case None => (d, false)
    case Some(d1) =>
      match InsertFriend(d1, frd, usr)
      case None => (d1, false)
      case Some(d2) => (d2, true)
  }

  function DeleteFriend(d: Db, usr: int, frd: int): Db {
    var once := Select(d.friends, (r: (int, int)) => r != (usr, frd));
    d.(friends := Select(once, (r: (int, int)) => r != (frd, usr)))
  }

  // ---------------------------------------------------------------- groups

  /** What a reader of the column gets: JSON null, an empty array and SQL NULL all read as no
      members. */
  function Members(c: MemberColumn): seq<int> {
    if c.JsonArray? then c.ids else []
  }

  /** What the JSON writer makes of an array value built up by appending: null if nothing was
      appended. */
  function Column(ids: seq<int>): (c: MemberColumn)
    ensures Members(c) == ids
  {
    if ids == [] then JsonNull else JsonArray(ids)
  }

  function AddGroup(d: Db, leader: int, grp: int, column: MemberColumn): Db {
    if leader in d.users && grp !in d.groups then d.(groups := d.groups[grp := Group(leader, column)]) else d
  }

  function UpdateGroupMember(d: Db, grp: int, column: MemberColumn): Db {
    if grp in d.groups then d.(groups := d.groups[grp := d.groups[grp].(column := column)]) else d
  }

  function DeleteGroup(d: Db, grp: int): Db {
    if grp !in d.groups then d
    else
      d.(groups := map g | g in d.groups && g != grp :: d.groups[g],
         userGroups := Select(d.userGroups, (r: (int, int)) => r.1 != grp),
         chats := Select(d.chats, (c: Chat) => !(c.GroupChat? && c.grp == grp)),
         offline := Select(d.offline, (r: Row) => r.grp != Some(grp)))
  }

  function AddUserInGroup(d: Db, usr: int, grp: int): Db {
    if usr in d.users && grp in d.groups then d.(userGroups := d.userGroups + [(usr, grp)]) else d
  }

  function DeleteUserInGroup(d: Db, usr: int, grp: int): Db {
    d.(userGroups := Select(d.userGroups, (r: (int, int)) => r != (usr, grp)))
  }

  // ---------------------------------------------------------------- chat objects

  predicate ChatAllowed(d: Db, c: Chat) {
    c.usr in d.users && match c { case FriendChat(_, frd) => frd in d.users case GroupChat(_, grp) => grp in d.groups }
  }

  /** Insert unless it is there; IGNORE drops a row the foreign keys refuse. */
  function AddChatObject(d: Db, c: Chat): (e: Db)
    ensures ChatAllowed(d, c) ==> c in e.chats
    ensures forall x :: x in d.chats ==> x in e.chats
  {
    if c in d.chats || !ChatAllowed(d, c) then d else d.(chats := d.chats + [c])
  }

  function DeleteChatObject(d: Db, c: Chat): Db {
    d.(chats := Select(d.chats, (x: Chat) => x != c))
  }

  /** The other side of each of the user's chat objects, in table order. */
  function ChatIds(chats: seq<Chat>, usr: int): (ids: seq<int>)
    ensures forall c | c in chats && c.usr == usr :: Side(c) in ids
    ensures (exists c :: c in chats && c.usr == usr) ==> ids != []
  {
    if chats == [] then []
    else (if chats[0].usr == usr then [Side(chats[0])] else []) + ChatIds(chats[1..], usr)
  }

  function Side(c: Chat): int {
    match c case FriendChat(_, frd) => frd case GroupChat(_, grp) => grp
  }

  // ---------------------------------------------------------------- offline messages

  predicate RowAllowed(d: Db, r: Row) {
    r.sender in d.users && r.frd in d.users && (r.grp.Some? ==> r.grp.value in d.groups)
  }

  function AddOfflineMsg(d: Db, r: Row): Db {
    if RowAllowed(d, r) then d.(offline := d.offline + [r]) else d
  }

  function DeleteOfflineMsg(d: Db, usr: int): Db {
    d.(offline := Select(d.offline, (r: Row) => r.frd != usr))
  }

  /** ORDER BY send_time. */
  function ByTime(rows: seq<Row>): (sorted: seq<Row>)
    ensures |sorted| == |rows|
    ensures forall r :: r in sorted <==> r in rows
    ensures Ordered(sorted)
  {
    if rows == [] then [] else Insert(rows[0], ByTime(rows[1..]))
  }

  predicate Ordered(rows: seq<Row>) {
    forall i, j | 0 <= i < j < |rows| :: rows[i].sendTime <= rows[j].sendTime
  }

  function Insert(r: Row, rows: seq<Row>): (more: seq<Row>)
    requires Ordered(rows)
    ensures |more| == |rows| + 1
    ensures forall x :: x in more <==> x == r || x in rows
    ensures Ordered(more)
  {
    if rows == [] || r.sendTime <= rows[0].sendTime then [r] + rows
    else
      var rest := Insert(r, rows[1..]);
      assert forall x | x in rest :: rows[0].sendTime <= x.sendTime;
      [rows[0]] + rest
  }

  /** LIMIT 0,n. */
  function Limit(rows: seq<Row>, n: nat): seq<Row> {
    if |rows| <= n then rows else rows[..n]
  }

  const FRIEND_LIMIT: nat := 50
  const GROUP_LIMIT: nat := 100

  function From(d: Db, sender: int, usr: int): seq<Row> {
    Select(d.offline, (r: Row) => r.sender == sender && r.frd == usr)
  }

  function In(d: Db, grp: int, usr: int): seq<Row> {
    Select(d.offline, (r: Row) => r.frd == usr && r.grp == Some(grp))
  }

  /** QueryOfflineMsg for a friend: by sender, whatever the type of the row. */
  function QueryFriendRows(d: Db, sender: int, usr: int): seq<Row> {
    Limit(ByTime(From(d, sender, usr)), FRIEND_LIMIT)
  }

  /** QueryOfflineMsg for a group, which is called with sender 0; the number 0 stands for no
      group and makes it a query for a friend. */
  function QueryGroupRows(d: Db, grp: int, usr: int): seq<Row> {
    if grp == 0 then QueryFriendRows(d, 0, usr) else Limit(ByTime(In(d, grp, usr)), GROUP_LIMIT)
  }

  /** A limited query returns every matching row exactly when the matches fit the limit. */
  lemma LimitCompleteIff(rows: seq<Row>, n: nat)
    ensures |Limit(ByTime(rows), n)| == |rows| <==> |rows| <= n
    ensures |rows| <= n ==> forall r :: r in rows ==> r in Limit(ByTime(rows), n)
    ensures forall r :: r in Limit(ByTime(rows), n) ==> r in rows
  {
  }

  // ---------------------------------------------------------------- applications

  function AddUserApply(d: Db, a: Apply): Option<Db> {
    if a.applicant in d.users && a.reviewer in d.users then Some(d.(applies := d.applies + [a])) else None
  }

  function DeleteUserApply(d: Db, applicant: int, reviewer: int, group: bool): Db {
    d.(applies := Select(d.applies, (a: Apply) =>
      !(a.applicant == applicant && a.reviewer == reviewer && a.GroupApply? == group)))
  }
}
