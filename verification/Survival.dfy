/**
 Looking up the details of somebody who has no user row brings the server down.  When does that
 not happen?
 */
module Survival {
  import opened Tables
  import opened Handlers
  import Frames
  import opened Integrity
  import opened Agreement
  import opened Numbers

  /** Where the two records of every group agree, the foreign keys of one vouch for the other. */
  lemma MembersAreUsers(d: Db, g: int, u: int)
    requires Referential(d) && Agree(d) && g in d.groups && u in Members(d.groups[g].column)
    ensures u in d.users
  {
    AgreesOn(d, g);
    CountZero(Members(d.groups[g].column), u);
    CountZero(d.userGroups, (u, g));
  }

  /** Whose details a request reads: the sender's of a 503, those of whoever logs in, and for 811
      those of every friend, leader and member among the user's chat objects. */
  predicate Reads(d: Db, r: Request, u: int) {
    match r
    case Chatting(m) => u == m.sender
    case Identify(usr, login) => login && u == usr
    case ListChats(usr) => exists c :: c in d.chats && c.usr == usr && OnSideOf(d, c, u)
    case _ => false
  }

  predicate OnSideOf(d: Db, c: Chat, u: int) {
    match c
    case FriendChat(_, frd) => u == frd
    case GroupChat(_, g) => g in d.groups && (u == d.groups[g].leader || u in Members(d.groups[g].column))
  }

  /** A request brings the server down exactly when it reads the details of somebody who is no user. */
  lemma BroughtDownIff(d: Db, r: Request)
    requires Referential(d)
    ensures !Acceptable(d, r) <==> exists u :: Reads(d, r, u) && u !in d.users
  {
    if r.ListChats? {
      forall c | c in d.chats && c.usr == r.usr
        ensures Shown(d, c) <==> forall u | OnSideOf(d, c, u) :: u in d.users
      {
        assert ChatAllowed(d, c);
      }
      if !Acceptable(d, r) {
        var c :| c in d.chats && c.usr == r.usr && !Shown(d, c);
        var u :| OnSideOf(d, c, u) && u !in d.users;
        assert Reads(d, r, u);
      }
    } else if r.Chatting? && r.msg.sender !in d.users {
      assert Reads(d, r, r.msg.sender);
    } else if r.Identify? && r.login && r.usr !in d.users {
      assert Reads(d, r, r.usr);
    }
  }

  /** So listing one's chat objects is safe. */
  lemma ListingIsSafe(d: Db, usr: int)
    requires Referential(d) && Agree(d)
    ensures Acceptable(d, ListChats(usr))
  {
    hide Referential, Agree;
    forall c, u | c in d.chats && c.usr == usr && c.GroupChat? && c.grp in d.groups
                  && u in Members(d.groups[c.grp].column)
      ensures u in d.users
    {
      MembersAreUsers(d, c.grp, u);
    }
  }

  /** Whoever sends a text or logs in was a user at the beginning. */
  predicate ByUsers(d: Db, calls: seq<Call>) {
    forall c | c in calls ::
      match c.request
      case Chatting(m) => m.sender in d.users
      case Identify(usr, login) => login ==> usr in d.users
      case _ => true
  }

  /** Users are never removed. */
  lemma UsersStay(s: Srv, fd: int, r: Request)
    ensures s.db.users <= Handle(s, fd, r).db.users
  {
    hide Handle;
    if r.Register? {
      Registering(s, fd, r.garbage, r.choice);
    } else if r.CreateGroup? {
      Founding(s, fd, r);
    } else {
      Frames.Frame(s, fd, r);
    }
  }

  /** The server lives through every run of careful requests in which texts and logins are those
      of users. */
  lemma {:induction false} CarefulRunsSurvive(s: Srv, calls: seq<Call>)
    requires Referential(s.db) && Agree(s.db) && AllCareful(s, calls) && ByUsers(s.db, calls)
    ensures Legal(s, calls)
    decreases |calls|
  {
    hide Referential, Agree, Handle, Careful, Shown;
    if calls != [] {
      var fd, r := calls[0].fd, calls[0].request;
      var t := Handle(s, fd, r);
      assert calls[0] in calls;
      if r.ListChats? {
        ListingIsSafe(s.db, r.usr);
      }
      HandleKeepsReferential(s, fd, r);
      HandleKeepsIff(s, fd, r);
      UsersStay(s, fd, r);
      Later(s.db, t.db, calls);
      CarefulRunsSurvive(t, calls[1..]);
    }
  }

  lemma Later(d: Db, e: Db, calls: seq<Call>)
    requires ByUsers(d, calls) && d.users <= e.users && calls != []
    ensures ByUsers(e, calls[1..])
  {
    forall c | c in calls[1..]
      ensures c in calls
    {
    }
  }
}
