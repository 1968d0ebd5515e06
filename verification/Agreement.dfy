/**
 A group's members are recorded twice: as JSON in the group's own row, without the leader, and
 as rows of the user-group table, with the leader.  Nothing in the schema ties the two
 together.  Here is exactly which requests keep them in agreement.
 */
module Agreement {
  import opened Tables
  import opened Handlers
  import Frames
  import opened Integrity

  /** As multisets: the users the user-group table has for `g` are the leader and the members. */
  ghost predicate AgreeOn(d: Db, g: int)
    requires g in d.groups
  {
    forall u :: Count(d.userGroups, (u, g)) == One(u == d.groups[g].leader) + Count(Members(d.groups[g].column), u)
  }

  ghost predicate Agree(d: Db) {
    forall g | g in d.groups :: AgreeOn(d, g)
  }

  function One(b: bool): nat {
    if b then 1 else 0
  }

  // ---------------------------------------------------------------- counting rows

  lemma CountOne<T>(rows: seq<T>, y: T, x: T)
    ensures Count(rows + [y], x) == Count(rows, x) + One(x == y)
  {
    CountAppend(rows, [y], x);
    assert [y][1..] == [];
  }

  lemma CountAdded(d: Db, usr: int, grp: int, u: int, g: int)
    ensures Count(AddUserInGroup(d, usr, grp).userGroups, (u, g))
         == Count(d.userGroups, (u, g)) + One((u, g) == (usr, grp) && usr in d.users && grp in d.groups)
  {
    CountOne(d.userGroups, (usr, grp), (u, g));
  }

  lemma {:induction false} CountAllAdded(d: Db, users: seq<int>, grp: int, u: int, g: int)
    ensures Count(AddAllInGroup(d, users, grp).userGroups, (u, g))
         == Count(d.userGroups, (u, g)) + (if g == grp && grp in d.groups && u in d.users then Count(users, u) else 0)
    decreases |users|
  {
    if users != [] {
      CountAdded(d, users[0], grp, u, g);
      CountAllAdded(AddUserInGroup(d, users[0], grp), users[1..], grp, u, g);
    }
  }

  lemma CountDeleted(d: Db, usr: int, grp: int, u: int, g: int)
    ensures Count(DeleteUserInGroup(d, usr, grp).userGroups, (u, g))
         == if (u, g) == (usr, grp) then 0 else Count(d.userGroups, (u, g))
  {
    CountSelect(d.userGroups, (r: (int, int)) => r != (usr, grp), (u, g));
  }

  lemma CountOfNoGroup(d: Db, g: int)
    requires Referential(d) && g !in d.groups
    ensures forall u :: Count(d.userGroups, (u, g)) == 0
  {
    forall u
      ensures Count(d.userGroups, (u, g)) == 0
    {
      CountZero(d.userGroups, (u, g));
    }
  }

  /** Where neither representation changes, agreement stays as it was. */
  lemma SameGroups(d: Db, e: Db)
    requires e.groups == d.groups && e.userGroups == d.userGroups
    ensures Agree(d) <==> Agree(e)
  {
    forall g | g in d.groups
      ensures AgreeOn(d, g) == AgreeOn(e, g)
    {
    }
  }

  /** Where one group changes, agreement is decided by that group. */
  lemma OneGroup(d: Db, e: Db, g: int)
    requires Agree(d)
    requires g in e.groups && e.groups.Keys <= d.groups.Keys + {g}
    requires forall h | h in e.groups && h != g :: e.groups[h] == d.groups[h]
    requires forall h, u | h != g :: Count(e.userGroups, (u, h)) == Count(d.userGroups, (u, h))
    ensures Agree(e) <==> AgreeOn(e, g)
  {
    forall h | h in e.groups && h != g
      ensures AgreeOn(e, h)
    {
      assert AgreeOn(d, h);
    }
  }

  // ---------------------------------------------------------------- joining: 502

  /** Admitting someone keeps the two in agreement exactly when he is a registered user: the
      JSON takes anybody, the foreign key does not. */
  lemma JoinKeepsIff(s: Srv, fd: int, usr: int, applicant: int, g: int)
    requires Agree(s.db) && g in s.db.groups
    ensures Agree(HandleAnswerGroup(s, fd, usr, applicant, true, g).db) <==> applicant in s.db.users
  {
    hide Agree, AgreeOn;
    var d := s.db;
    var oldIds := Members(d.groups[g].column);
    var d1 := UpdateGroupMember(d, g, JsonArray(oldIds + [applicant]));
    var e := AddUserInGroup(d1, applicant, g);
    SameGroups(e, HandleAnswerGroup(s, fd, usr, applicant, true, g).db);
    forall u, h
      ensures Count(e.userGroups, (u, h))
           == Count(d.userGroups, (u, h)) + One((u, h) == (applicant, g) && applicant in d.users)
    {
      CountAdded(d1, applicant, g, u, h);
    }
    OneGroup(d, e, g);
    AgreesOn(d, g);
    forall u
      ensures Count(Members(e.groups[g].column), u) == Count(oldIds, u) + One(u == applicant)
    {
      CountOne(oldIds, applicant, u);
    }
    Decide(e, g, applicant);
  }

  lemma AgreesOn(d: Db, g: int)
    requires Agree(d) && g in d.groups
    ensures forall u ::
              Count(d.userGroups, (u, g)) == One(u == d.groups[g].leader) + Count(Members(d.groups[g].column), u)
  {
    assert AgreeOn(d, g);
  }

  /** Agreement on a group where only the row count of `x` is in doubt. */
  lemma Decide(e: Db, g: int, x: int)
    requires g in e.groups
    requires forall u | u != x ::
      Count(e.userGroups, (u, g)) == One(u == e.groups[g].leader) + Count(Members(e.groups[g].column), u)
    ensures AgreeOn(e, g)
       <==> Count(e.userGroups, (x, g)) == One(x == e.groups[g].leader) + Count(Members(e.groups[g].column), x)
  {
  }

  // ---------------------------------------------------------------- leaving: 602

  /** Leaving keeps agreement exactly when it is not the leader who leaves, or nothing happens
      because the group has no other member. */
  lemma LeaveKeepsIff(s: Srv, fd: int, usr: int, g: int)
    requires Agree(s.db) && g in s.db.groups
    ensures Agree(HandleLeaveGroup(s, fd, usr, g).db)
       <==> usr != s.db.groups[g].leader || Members(s.db.groups[g].column) == []
  {
    hide Agree, AgreeOn;
    var d := s.db;
    var ids := Members(d.groups[g].column);
    var e := HandleLeaveGroup(s, fd, usr, g).db;
    if ids != [] {
      var stay := (u: int) => u != usr;
      var d1 := UpdateGroupMember(d, g, Column(Select(ids, stay)));
      forall u, h
        ensures Count(e.userGroups, (u, h)) == if (u, h) == (usr, g) then 0 else Count(d.userGroups, (u, h))
      {
        CountDeleted(d1, usr, g, u, h);
      }
      OneGroup(d, e, g);
      AgreesOn(d, g);
      forall u
        ensures Count(Members(e.groups[g].column), u) == if u == usr then 0 else Count(ids, u)
      {
        CountSelect(ids, stay, u);
      }
      Decide(e, g, usr);
    }
  }

  // ---------------------------------------------------------------- founding: 506

  /** When founding a group records it the same way twice. */
  ghost predicate FoundsWell(d: Db, leader: int, members: seq<int>, id: int) {
    if id in d.groups
    then leader !in d.users && forall m | m in members :: m !in d.users
    else leader in d.users ==> forall m | m in members :: m in d.users
  }

  /** Founding keeps agreement exactly when the id drawn is not a group already (or nobody is
      added to that group) and every member named is registered (or the leader is not). */
  lemma FoundKeepsIff(s: Srv, fd: int, usr: int, leader: int, members: MemberColumn, garbage: int, id: int)
    requires Agree(s.db) && Referential(s.db)
    requires NewIdOf(s.db, garbage, id).Some?
    ensures Agree(HandleCreateGroup(s, fd, usr, leader, members, garbage, id).db)
       <==> FoundsWell(s.db, leader, Members(members), id)
  {
    hide Agree, AgreeOn, Referential, AddAllInGroup, HandleCreateGroup;
    var d, ids := s.db, Members(members);
    var d1 := AddGroup(d, leader, id, members);
    var d2 := AddUserInGroup(d1, leader, id);
    var e := AddAllInGroup(d2, ids, id);
    CreateGroupDb(s, fd, usr, leader, members, garbage, id);
    forall u, h
      ensures Count(e.userGroups, (u, h)) == Count(d.userGroups, (u, h))
                + (if h == id && id in d1.groups && u in d.users then One(u == leader) + Count(ids, u) else 0)
    {
      CountAdded(d1, leader, id, u, h);
      CountAllAdded(d2, ids, id, u, h);
    }
    CountMembers(d, ids);
    if id in d1.groups {
      OneGroup(d, e, id);
      if id in d.groups {
        AgreesOn(d, id);
        AgreeMeans(e, id);
        if !FoundsWell(d, leader, ids, id) {
          var x :| x in d.users && (x == leader || x in ids);
          assert Count(e.userGroups, (x, id)) > Count(d.userGroups, (x, id));
        }
      } else {
        CountOfNoGroup(d, id);
        AgreeMeans(e, id);
      }
    } else {
      NotFounded(d, e);
    }
  }

  lemma AgreeMeans(e: Db, g: int)
    requires g in e.groups
    ensures AgreeOn(e, g)
       <==> forall u ::
              Count(e.userGroups, (u, g)) == One(u == e.groups[g].leader) + Count(Members(e.groups[g].column), u)
  {
  }

  lemma CountMembers(d: Db, ids: seq<int>)
    ensures forall u :: Count(ids, u) > 0 <==> u in ids
  {
    forall u
      ensures Count(ids, u) > 0 <==> u in ids
    {
      CountZero(ids, u);
    }
  }

  lemma NotFounded(d: Db, e: Db)
    requires Agree(d) && e.groups == d.groups
    requires forall u, h :: Count(e.userGroups, (u, h)) == Count(d.userGroups, (u, h))
    ensures Agree(e)
  {
    forall h | h in e.groups
      ensures AgreeOn(e, h)
    {
      assert AgreeOn(d, h);
    }
  }

  // ---------------------------------------------------------------- dissolving: 603

  lemma {:induction false} DismissCounts(s: Srv, members: seq<int>, g: int, u: int, h: int)
    requires h != g
    ensures Count(Dismiss(s, members, g).db.userGroups, (u, h)) == Count(s.db.userGroups, (u, h))
    decreases |members|
  {
    if members != [] {
      var s1 := Push(s, members[0], Reply(603, true));
      CountDeleted(s1.db, members[0], g, u, h);
      var d := DeleteOfflineMsg(DeleteUserInGroup(s1.db, members[0], g), members[0]);
      DismissCounts(s1.(db := d), members[1..], g, u, h);
    }
  }

  /** Dissolving a group, by whomever, leaves all others in agreement. */
  lemma DissolveKeeps(s: Srv, fd: int, usr: int, g: int)
    requires Agree(s.db)
    ensures Agree(HandleDissolveGroup(s, fd, usr, g).db)
  {
    hide Dismiss, Select;
    var e := HandleDissolveGroup(s, fd, usr, g).db;
    var s1 := Send(s, fd, Reply(603, true));
    var s2 := s1.(db := DeleteOfflineMsg(DeleteUserInGroup(s1.db, usr, g), usr));
    var members := if g in s2.db.groups then Members(s2.db.groups[g].column) else [];
    var s3 := Dismiss(s2, members, g);
    assert e == DeleteGroup(s3.db, g);
    forall h | h in e.groups
      ensures AgreeOn(e, h)
    {
      assert h in s.db.groups && h != g && e.groups[h] == s.db.groups[h];
      assert AgreeOn(s.db, h);
      forall u
        ensures Count(e.userGroups, (u, h)) == Count(s.db.userGroups, (u, h))
      {
        CountDeleted(s1.db, usr, g, u, h);
        DismissCounts(s2, members, g, u, h);
        CountSelect(s3.db.userGroups, (r: (int, int)) => r.1 != g, (u, h));
      }
    }
  }

  // ---------------------------------------------------------------- runs

  /** The condition a request has to meet, checkable before it is made. */
  ghost predicate Careful(d: Db, r: Request) {
    match r
    case AnswerGroup(_, applicant, agree, g) => agree && g in d.groups ==> applicant in d.users
    case CreateGroup(_, leader, members, garbage, id) =>
      NewIdOf(d, garbage, id).Some? ==> FoundsWell(d, leader, Members(members), id)
    case LeaveGroup(usr, g) =>
      g in d.groups ==> usr != d.groups[g].leader || Members(d.groups[g].column) == []
    case _ => true
  }

  /** Per request: agreement survives if and only if the condition is met. */
  lemma HandleKeepsIff(s: Srv, fd: int, r: Request)
    requires Agree(s.db) && Referential(s.db)
    ensures Agree(Handle(s, fd, r).db) <==> Careful(s.db, r)
  {
    hide Agree, Referential, FoundsWell, HandleCreateGroup, HandleLeaveGroup, HandleDissolveGroup,
      HandleChatting, HandleAnswerFriend, HandleRegister, HandleUnfriend, HandleApply, UpdateGroupMember,
      AddUserInGroup;
    var e := Handle(s, fd, r).db;
    match r {
      case AnswerGroup(usr, a, agree, g) =>
        if agree && g in s.db.groups {
          JoinKeepsIff(s, fd, usr, a, g);
        } else {
          SameGroups(s.db, e);
        }
      case CreateGroup(usr, leader, members, garbage, id) =>
        if NewIdOf(s.db, garbage, id).Some? {
          FoundKeepsIff(s, fd, usr, leader, members, garbage, id);
        } else {
          CreateGroupDb(s, fd, usr, leader, members, garbage, id);
        }
      case LeaveGroup(usr, g) =>
        if g in s.db.groups {
          LeaveKeepsIff(s, fd, usr, g);
        } else {
          NobodyLeaves(s, fd, usr, g);
        }
      case DissolveGroup(usr, g) =>
        DissolveKeeps(s, fd, usr, g);
      case _ =>
        Frames.Frame(s, fd, r);
        SameGroups(s.db, e);
    }
  }

  lemma NobodyLeaves(s: Srv, fd: int, usr: int, g: int)
    requires g !in s.db.groups
    ensures HandleLeaveGroup(s, fd, usr, g).db == s.db
  {
  }

  ghost predicate AllCareful(s: Srv, calls: seq<Call>)
    decreases |calls|
  {
    calls == [] ||
    (Careful(s.db, calls[0].request) && AllCareful(Handle(s, calls[0].fd, calls[0].request), calls[1..]))
  }

  /** Through every run of careful requests the two records of every group agree. */
  lemma {:induction false} RunKeepsAgreement(s: Srv, calls: seq<Call>)
    requires Agree(s.db) && Referential(s.db) && AllCareful(s, calls)
    ensures Agree(Run(s, calls).db)
    decreases |calls|
  {
    hide Agree, Referential, Handle, Careful;
    if calls != [] {
      HandleKeepsReferential(s, calls[0].fd, calls[0].request);
      HandleKeepsIff(s, calls[0].fd, calls[0].request);
      RunKeepsAgreement(Handle(s, calls[0].fd, calls[0].request), calls[1..]);
    }
  }

  // ---------------------------------------------------------------- the in-memory map

  /** At startup the map holds, for every group, exactly the users of the user-group table. */
  lemma StartupMatchesTable(d: Db, g: int, u: int)
    requires Agree(d) && g in d.groups
    ensures Count(StartupGroups(d)[g], u) == Count(d.userGroups, (u, g))
  {
    var leader, ids := d.groups[g].leader, Members(d.groups[g].column);
    assert AgreeOn(d, g);
    CountAppend([leader], ids, u);
    assert [leader][1..] == [];
  }
}
