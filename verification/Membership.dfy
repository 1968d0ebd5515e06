/**
 Group texts go by the in-memory map, which is filled at startup only.  When does it still tell
 the membership that the tables record?
 */
module Membership {
  import opened Tables
  import opened Handlers
  import Frames
  import opened Integrity
  import opened Agreement
  import opened Delivery

  ghost predicate Fresh(s: Srv) {
    s.groups == StartupGroups(s.db)
  }

  /** The requests that change who belongs to what. */
  predicate ChangesMembership(d: Db, r: Request) {
    match r
    case AnswerGroup(_, _, agree, g) => agree && g in d.groups
    case CreateGroup(_, leader, _, garbage, id) => NewIdOf(d, garbage, id).Some? && leader in d.users && id !in d.groups
    case LeaveGroup(usr, g) => g in d.groups && usr in Members(d.groups[g].column)
    case DissolveGroup(_, g) => g in d.groups
    case _ => false
  }

  lemma {:induction false} SelectAllIff<T(!new)>(rows: seq<T>, keep: T -> bool)
    ensures Select(rows, keep) == rows <==> forall r | r in rows :: keep(r)
  {
    if rows != [] {
      SelectAllIff(rows[1..], keep);
      if keep(rows[0]) {
        assert ([rows[0]] + Select(rows[1..], keep))[1..] == Select(rows[1..], keep);
      } else {
        assert |Select(rows, keep)| < |rows|;
      }
    }
  }

  /** What the request makes of the group table. */
  lemma GroupsAfter(s: Srv, fd: int, r: Request)
    ensures ChangesMembership(s.db, r) ==> StartupGroups(Handle(s, fd, r).db) != StartupGroups(s.db)
    ensures !ChangesMembership(s.db, r) ==> StartupGroups(Handle(s, fd, r).db) == StartupGroups(s.db)
  {
    hide Handle, Select;
    match r {
      case AnswerGroup(usr, a, agree, g) => JoinChanges(s, fd, usr, a, agree, g);
      case CreateGroup(usr, leader, members, garbage, id) => FoundChanges(s, fd, usr, leader, members, garbage, id);
      case LeaveGroup(usr, g) => LeaveChanges(s, fd, usr, g);
      case DissolveGroup(usr, g) => DissolveChanges(s, fd, usr, g);
      case _ => Frames.Frame(s, fd, r);
    }
  }

  lemma JoinChanges(s: Srv, fd: int, usr: int, a: int, agree: bool, g: int)
    ensures var t := Handle(s, fd, AnswerGroup(usr, a, agree, g));
            if agree && g in s.db.groups then StartupGroups(t.db) != StartupGroups(s.db)
            else StartupGroups(t.db) == StartupGroups(s.db)
  {
    var t := Handle(s, fd, AnswerGroup(usr, a, agree, g));
    if agree && g in s.db.groups {
      assert |StartupGroups(t.db)[g]| == |StartupGroups(s.db)[g]| + 1;
    }
  }

  lemma FoundChanges(s: Srv, fd: int, usr: int, leader: int, members: MemberColumn, garbage: int, id: int)
    ensures var t := Handle(s, fd, CreateGroup(usr, leader, members, garbage, id));
            if NewIdOf(s.db, garbage, id).Some? && leader in s.db.users && id !in s.db.groups
            then StartupGroups(t.db) != StartupGroups(s.db)
            else StartupGroups(t.db) == StartupGroups(s.db)
  {
    hide AddAllInGroup, HandleCreateGroup;
    CreateGroupDb(s, fd, usr, leader, members, garbage, id);
    var t := Handle(s, fd, CreateGroup(usr, leader, members, garbage, id));
    if NewIdOf(s.db, garbage, id).Some? && leader in s.db.users && id !in s.db.groups {
      assert id in StartupGroups(t.db) && id !in StartupGroups(s.db);
    }
  }

  lemma LeaveChanges(s: Srv, fd: int, usr: int, g: int)
    ensures var t := Handle(s, fd, LeaveGroup(usr, g));
            if g in s.db.groups && usr in Members(s.db.groups[g].column) then StartupGroups(t.db) != StartupGroups(s.db)
            else StartupGroups(t.db) == StartupGroups(s.db)
  {
    hide Select;
    var t := Handle(s, fd, LeaveGroup(usr, g));
    if g in s.db.groups && Members(s.db.groups[g].column) != [] {
      var leader, ids := s.db.groups[g].leader, Members(s.db.groups[g].column);
      var left := Select(ids, (u: int) => u != usr);
      SelectAllIff(ids, (u: int) => u != usr);
      assert StartupGroups(s.db)[g][1..] == ids && StartupGroups(t.db)[g][1..] == left;
      if usr !in ids {
        assert StartupGroups(t.db) == StartupGroups(s.db);
      }
    }
  }

  lemma DissolveChanges(s: Srv, fd: int, usr: int, g: int)
    ensures var t := Handle(s, fd, DissolveGroup(usr, g));
            if g in s.db.groups then StartupGroups(t.db) != StartupGroups(s.db)
            else StartupGroups(t.db) == StartupGroups(s.db)
  {
    hide Dismiss, Select;
    var t := Handle(s, fd, DissolveGroup(usr, g));
    if g in s.db.groups {
      assert g !in StartupGroups(t.db) && g in StartupGroups(s.db);
    }
  }

  /** Exactly when a request leaves the map telling the truth. */
  lemma MapStaysFreshIff(s: Srv, fd: int, r: Request)
    requires Fresh(s)
    ensures Fresh(Handle(s, fd, r)) <==> !ChangesMembership(s.db, r)
  {
    hide Handle, ChangesMembership, StartupGroups;
    Frames.Frame(s, fd, r);
    GroupsAfter(s, fd, r);
  }

  ghost predicate NoneChangesMembership(s: Srv, calls: seq<Call>)
    decreases |calls|
  {
    calls == [] ||
    (!ChangesMembership(s.db, calls[0].request)
     && NoneChangesMembership(Handle(s, calls[0].fd, calls[0].request), calls[1..]))
  }

  lemma {:induction false} RunStaysFresh(s: Srv, calls: seq<Call>)
    requires Fresh(s) && NoneChangesMembership(s, calls)
    ensures Fresh(Run(s, calls))
    decreases |calls|
  {
    hide Handle, Fresh, ChangesMembership;
    if calls != [] {
      MapStaysFreshIff(s, calls[0].fd, calls[0].request);
      RunStaysFresh(Handle(s, calls[0].fd, calls[0].request), calls[1..]);
    }
  }

  /** After a run from startup in which nobody's membership changes and every request is
      careful, a group text is pushed to or stored for every user as often as the user-group
      table has him in the group, except for the sender, who gets none. */
  lemma GroupTextsReachTheTable(s0: Srv, calls: seq<Call>, fd: int, m: Msg, u: int)
    requires Fresh(s0) && NoneChangesMembership(s0, calls)
    requires Agree(s0.db) && Referential(s0.db) && AllCareful(s0, calls)
    requires var d := Run(s0, calls).db;
             m.group && m.receiver in d.groups && m.sender in d.users && u in d.users
    ensures var s, t := Run(s0, calls), Handle(Run(s0, calls), fd, Chatting(m));
            Pushed(t.sent, u, m) + Waiting(t.db.offline, u, m) ==
            Pushed(s.sent, u, m) + Waiting(s.db.offline, u, m)
              + if u == m.sender then 0 else Count(s.db.userGroups, (u, m.receiver))
  {
    hide Agree, Referential, AllCareful, NoneChangesMembership, Handle, Run, Pushed, Waiting, Count;
    RunStaysFresh(s0, calls);
    RunKeepsAgreement(s0, calls);
    var s := Run(s0, calls);
    StartupMatchesTable(s.db, m.receiver, u);
    HandleBalance(s, fd, Chatting(m), u, m);
    NothingRefused(s, Chatting(m), u, m);
  }
}
