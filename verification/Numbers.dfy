/**
 User numbers and group numbers come from one pool, and request 506 leaves its number there.
 Which requests keep the two apart?
 */
module Numbers {
  import opened Tables
  import opened Handlers
  import Frames
  import opened Integrity

  /** No number belongs to a group and a user at once, or to a group and, being 0, to none. */
  ghost predicate Disjoint(d: Db) {
    forall g | g in d.groups :: g !in d.users && g != 0
  }

  /** A registration must not draw a group's number, and a group that comes into being must not
      draw a user's number or 0. */
  predicate KeepsApart(d: Db, r: Request) {
    match r
    case Register(garbage, id) => NewIdOf(d, garbage, id).Some? && id !in d.users ==> id !in d.groups
    case CreateGroup(_, leader, _, garbage, id) =>
      NewIdOf(d, garbage, id).Some? && leader in d.users && id !in d.groups ==> id !in d.users && id != 0
    case _ => true
  }

  /** Per request: user and group numbers stay apart if and only if the condition is met. */
  lemma DisjointKeepsIff(s: Srv, fd: int, r: Request)
    requires Disjoint(s.db)
    ensures Disjoint(Handle(s, fd, r).db) <==> KeepsApart(s.db, r)
  {
    hide Handle;
    if r.Register? {
      Registering(s, fd, r.garbage, r.choice);
    } else if r.CreateGroup? {
      Founding(s, fd, r);
    } else {
      Frames.Frame(s, fd, r);
    }
  }

  lemma Registering(s: Srv, fd: int, garbage: int, id: int)
    ensures var d, e := s.db, Handle(s, fd, Register(garbage, id)).db;
            && e.groups == d.groups
            && e.users == if NewIdOf(d, garbage, id).Some? && id !in d.users then d.users + {id} else d.users
  {
  }

  lemma Founding(s: Srv, fd: int, r: Request)
    requires r.CreateGroup?
    ensures var d, e := s.db, Handle(s, fd, r).db;
            && e.users == d.users
            && e.groups.Keys == if NewIdOf(d, r.garbage, r.choice).Some? && r.leader in d.users
                                then d.groups.Keys + {r.choice} else d.groups.Keys
  {
    hide HandleCreateGroup, AddAllInGroup;
    CreateGroupDb(s, fd, r.usr, r.leader, r.members, r.garbage, r.choice);
  }

  ghost predicate AllKeepApart(s: Srv, calls: seq<Call>)
    decreases |calls|
  {
    calls == [] ||
    (KeepsApart(s.db, calls[0].request) && AllKeepApart(Handle(s, calls[0].fd, calls[0].request), calls[1..]))
  }

  lemma {:induction false} RunKeepsDisjoint(s: Srv, calls: seq<Call>)
    requires Disjoint(s.db) && AllKeepApart(s, calls)
    ensures Disjoint(Run(s, calls).db)
    decreases |calls|
  {
    hide Disjoint, Handle, KeepsApart;
    if calls != [] {
      DisjointKeepsIff(s, calls[0].fd, calls[0].request);
      RunKeepsDisjoint(Handle(s, calls[0].fd, calls[0].request), calls[1..]);
    }
  }
}
