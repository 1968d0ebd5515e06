/**
 Issuing ids: any number of handlers of registrations (102) and of new groups (506) at work at
 once, in any interleaving of their steps: draw an id, register it, remove it from the pool; draw
 an id, insert the group.  The steps take no common lock, so two handlers may well draw the same
 id.
 */
module IdPool {
  import opened Wrappers
  import opened Tables
  import Handlers
  import opened Integrity

  /** How far one handler has got. */
  datatype Stage =
    | Idle
    | Drawn(id: int)                // after getNewID
    | Registered(id: int)           // after Register: the row is in the user table
    | Done(issued: Option<int>)     // answered, with the new id or a refusal
    | GroupDrawn(leader: int, id: int)   // request 506 after getNewID
    | GroupDone                          // after AddGroup; the id stays in the pool

  datatype Store = Store(pool: set<int>, users: set<int>, groups: set<int>, handlers: seq<Stage>)

  datatype Event =
    | Draw(h: nat, garbage: int, choice: int)   // `garbage` is the caller's uninitialised int
    | Register(h: nat)
    | Remove(h: nat)
    | DrawGroup(h: nat, leader: int, garbage: int, choice: int)
    | InsertGroup(h: nat)

  predicate Enabled(s: Store, e: Event) {
    match e
    case Draw(h, garbage, choice) =>
      h < |s.handlers| && s.handlers[h].Idle? && (garbage in s.users || s.pool == {} || choice in s.pool)
    case Register(h) => h < |s.handlers| && s.handlers[h].Drawn?
    case Remove(h) => h < |s.handlers| && s.handlers[h].Registered?
    case DrawGroup(h, _, garbage, choice) =>
      h < |s.handlers| && s.handlers[h].Idle? && (garbage in s.users || s.pool == {} || choice in s.pool)
    case InsertGroup(h) => h < |s.handlers| && s.handlers[h].GroupDrawn?
  }

  function Next(s: Store, e: Event): Store
    requires Enabled(s, e)
  {
    match e
    case Draw(h, garbage, choice) =>
      s.(handlers := s.handlers[h := if garbage in s.users || s.pool == {} then Done(None) else Drawn(choice)])
    case Register(h) =>
      var id := s.handlers[h].id;
      if id in s.users then s.(handlers := s.handlers[h := Done(None)])
      else s.(users := s.users + {id}, handlers := s.handlers[h := Registered(id)])
    case Remove(h) =>
      var id := s.handlers[h].id;
      s.(pool := s.pool - {id}, handlers := s.handlers[h := Done(Some(id))])
    case DrawGroup(h, leader, garbage, choice) =>
      var stage := if garbage in s.users || s.pool == {} then Done(None) else GroupDrawn(leader, choice);
      s.(handlers := s.handlers[h := stage])
    case InsertGroup(h) =>
      var t := s.(handlers := s.handlers[h := GroupDone]);
      if s.handlers[h].leader in s.users then t.(groups := s.groups + {s.handlers[h].id}) else t
  }

  predicate Legal(s: Store, run: seq<Event>)
    decreases |run|
  {
    run == [] || (Enabled(s, run[0]) && Legal(Next(s, run[0]), run[1..]))
  }

  function Run(s: Store, run: seq<Event>): Store
    requires Legal(s, run)
    decreases |run|
  {
    if run == [] then s else Run(Next(s, run[0]), run[1..])
  }

  /** The id a handler has put in the user table. */
  function Issued(st: Stage): Option<int> {
    match st
    case Registered(id) => Some(id)
    case Done(o) => o
    case _ => None
  }

  ghost predicate AllIdle(s: Store) {
    forall h | 0 <= h < |s.handlers| :: s.handlers[h].Idle?
  }

  /** Everything that holds between the beginning `s0` and any later moment `s`. */
  ghost predicate Inv(s0: Store, s: Store) {
    && (forall x :: x in s.pool || x in s.users <==> x in s0.pool || x in s0.users)
    && (forall x :: x in s.users <==> x in s0.users || exists h :: HasIssued(s, h, x))
    && (forall h, x :: HasIssued(s, h, x) ==> x !in s0.users)
    && (forall h, k, x :: HasIssued(s, h, x) && HasIssued(s, k, x) ==> h == k)
    && (forall h | 0 <= h < |s.handlers| && s.handlers[h].Drawn? ::
          s.handlers[h].id in s0.pool || s.handlers[h].id in s0.users)
    && (forall x :: x in s.pool && x in s.users ==>
          (x in s0.pool && x in s0.users) || exists h :: IsRegistered(s, h, x))
    && s.pool <= s0.pool
  }

  predicate HasIssued(s: Store, h: int, x: int) {
    0 <= h < |s.handlers| && Issued(s.handlers[h]) == Some(x)
  }

  predicate IsRegistered(s: Store, h: int, x: int) {
    0 <= h < |s.handlers| && s.handlers[h] == Registered(x)
  }

  lemma StartInv(s: Store)
    requires AllIdle(s)
    ensures Inv(s, s)
  {
  }

  lemma StepKeeps(s0: Store, s: Store, e: Event)
    requires Inv(s0, s) && Enabled(s, e)
    ensures Inv(s0, Next(s, e))
  {
    hide Inv;
    match e {
      case Register(h) => RegisterKeeps(s0, s, h);
      case Remove(h) => RemoveKeeps(s0, s, h);
      case _ => OtherStepsKeep(s0, s, e);
    }
  }

  /** Drawing an id and inserting a group issue nothing. */
  lemma OtherStepsKeep(s0: Store, s: Store, e: Event)
    requires Inv(s0, s) && Enabled(s, e) && !e.Register? && !e.Remove?
    ensures Inv(s0, Next(s, e))
  {
    var t := Next(s, e);
    OneMoves(s, t, e.h);
    assert forall k, x :: HasIssued(t, k, x) == HasIssued(s, k, x) && IsRegistered(t, k, x) == IsRegistered(s, k, x);
  }

  lemma RegisterKeeps(s0: Store, s: Store, h: nat)
    requires Inv(s0, s) && Enabled(s, Register(h))
    ensures Inv(s0, Next(s, Register(h)))
  {
    var t := Next(s, Register(h));
    OneMoves(s, t, h);
    var id := s.handlers[h].id;
    if id !in s.users {
      assert HasIssued(t, h, id) && IsRegistered(t, h, id);
    }
  }

  lemma RemoveKeeps(s0: Store, s: Store, h: nat)
    requires Inv(s0, s) && Enabled(s, Remove(h))
    ensures Inv(s0, Next(s, Remove(h)))
  {
    var t := Next(s, Remove(h));
    OneMoves(s, t, h);
    var id := s.handlers[h].id;
    assert HasIssued(s, h, id) && HasIssued(t, h, id);
  }

  lemma OneMoves(s: Store, t: Store, h: nat)
    requires h < |s.handlers| == |t.handlers|
    requires forall k | 0 <= k < |s.handlers| && k != h :: t.handlers[k] == s.handlers[k]
    ensures forall k, x :: k != h ==> HasIssued(t, k, x) == HasIssued(s, k, x)
    ensures forall k, x :: k != h ==> IsRegistered(t, k, x) == IsRegistered(s, k, x)
  {
  }

  lemma {:induction false} RunKeeps(s0: Store, s: Store, run: seq<Event>)
    requires Inv(s0, s) && Legal(s, run)
    ensures Inv(s0, Run(s, run))
    decreases |run|
  {
    hide Inv, Enabled, Next;
    if run != [] {
      StepKeeps(s0, s, run[0]);
      RunKeeps(s0, Next(s, run[0]), run[1..]);
    }
  }

  ghost predicate NoneRegistered(s: Store) {
    forall h | 0 <= h < |s.handlers| :: !s.handlers[h].Registered?
  }

  /** Whatever the interleaving: no id goes to two clients or to one that had it before, no id
      is lost or made up, and whenever no handler stands between its last two steps an id is in
      the pool or in use but not both. */
  lemma IdsAreIssuedOnce(s0: Store, run: seq<Event>)
    requires AllIdle(s0) && s0.pool !! s0.users && Legal(s0, run)
    ensures var s := Run(s0, run);
            && (forall h, k, x :: HasIssued(s, h, x) && HasIssued(s, k, x) ==> h == k)
            && (forall h, x :: HasIssued(s, h, x) ==> x in s0.pool && x in s.users)
            && s.pool + s.users == s0.pool + s0.users
            && (NoneRegistered(s) ==> s.pool !! s.users)
  {
    StartInv(s0);
    RunKeeps(s0, s0, run);
    var s := Run(s0, run);
    assert forall x :: x in s.pool + s.users <==> x in s0.pool + s0.users;
    if NoneRegistered(s) {
      assert forall x :: x in s.pool ==> x !in s.users;
    }
  }

  // ---------------------------------------------------------------- numbers of users and of groups

  ghost predicate Apart(s: Store) {
    forall x :: x in s.users ==> x !in s.groups
  }

  /** A user must not get a group's number, nor a group a user's. */
  predicate KeepsApart(s: Store, e: Event)
    requires Enabled(s, e)
  {
    match e
    case Register(h) => s.handlers[h].id in s.users || s.handlers[h].id !in s.groups
    case InsertGroup(h) => s.handlers[h].leader in s.users ==> s.handlers[h].id !in s.users
    case _ => true
  }

  /** One step, in any interleaving: users and groups keep different numbers if and only if the
      condition is met. */
  lemma StepKeepsApartIff(s: Store, e: Event)
    requires Apart(s) && Enabled(s, e)
    ensures Apart(Next(s, e)) <==> KeepsApart(s, e)
  {
    var t := Next(s, e);
    if !KeepsApart(s, e) {
      var x := s.handlers[e.h].id;
      assert x in t.users && x in t.groups;
    }
  }

  ghost predicate AllKeepApart(s: Store, run: seq<Event>)
    requires Legal(s, run)
    decreases |run|
  {
    run == [] || (KeepsApart(s, run[0]) && AllKeepApart(Next(s, run[0]), run[1..]))
  }

  /** Nothing puts a number right again, so a whole run keeps them apart if and only if each of
      its steps does. */
  lemma {:induction false} RunKeepsApartIff(s: Store, run: seq<Event>)
    requires Apart(s) && Legal(s, run)
    ensures Apart(Run(s, run)) <==> AllKeepApart(s, run)
    decreases |run|
  {
    if run != [] {
      StepKeepsApartIff(s, run[0]);
      if KeepsApart(s, run[0]) {
        RunKeepsApartIff(Next(s, run[0]), run[1..]);
      } else {
        var x :| x in Next(s, run[0]).users && x in Next(s, run[0]).groups;
        OnlyGrows(Next(s, run[0]), run[1..]);
      }
    }
  }

  lemma {:induction false} OnlyGrows(s: Store, run: seq<Event>)
    requires Legal(s, run)
    ensures s.users <= Run(s, run).users && s.groups <= Run(s, run).groups
    decreases |run|
  {
    if run != [] {
      OnlyGrows(Next(s, run[0]), run[1..]);
    }
  }

  lemma OneStep(s: Store, run: seq<Event>)
    requires run != [] && Enabled(s, run[0]) && Legal(Next(s, run[0]), run[1..])
    ensures Legal(s, run) && Run(s, run) == Run(Next(s, run[0]), run[1..])
  {
  }

  lemma NoStep(s: Store)
    ensures Legal(s, []) && Run(s, []) == s
  {
  }

  /** What the code does not prevent: request 506 leaves its id in the pool, so a user can be
      given the number of a group. */
  lemma GroupAndUserMayCollide(id: int)
    ensures var s := Store({id}, {id + 1}, {}, [Idle, Idle]);
            var run := [DrawGroup(0, id + 1, id, id), InsertGroup(0), Draw(1, id, id), Register(1), Remove(1)];
            Legal(s, run) && id in Run(s, run).users && id in Run(s, run).groups
  {
    var s := Store({id}, {id + 1}, {}, [Idle, Idle]);
    var run := [DrawGroup(0, id + 1, id, id), InsertGroup(0), Draw(1, id, id), Register(1), Remove(1)];
    FiveSteps(s, run, Next(Next(Next(Next(Next(s, run[0]), run[1]), run[2]), run[3]), run[4]));
  }

  /** Nor that a user is given the number that a group is about to get, and takes it from the pool. */
  lemma UserAndGroupMayCollide(id: int)
    ensures var s := Store({id}, {id + 1}, {}, [Idle, Idle]);
            var run := [DrawGroup(0, id + 1, id, id), Draw(1, id, id), Register(1), Remove(1), InsertGroup(0)];
            Legal(s, run) && id in Run(s, run).users && id in Run(s, run).groups
  {
    var s := Store({id}, {id + 1}, {}, [Idle, Idle]);
    var run := [DrawGroup(0, id + 1, id, id), Draw(1, id, id), Register(1), Remove(1), InsertGroup(0)];
    FiveSteps(s, run, Next(Next(Next(Next(Next(s, run[0]), run[1]), run[2]), run[3]), run[4]));
  }

  lemma FiveSteps(s: Store, run: seq<Event>, t: Store)
    requires |run| == 5 && Enabled(s, run[0])
    requires var s1 := Next(s, run[0]); Enabled(s1, run[1])
    requires var s2 := Next(Next(s, run[0]), run[1]); Enabled(s2, run[2])
    requires var s3 := Next(Next(Next(s, run[0]), run[1]), run[2]); Enabled(s3, run[3])
    requires var s4 := Next(Next(Next(Next(s, run[0]), run[1]), run[2]), run[3]);
             Enabled(s4, run[4]) && t == Next(s4, run[4])
    ensures Legal(s, run) && Run(s, run) == t
  {
    hide Enabled, Next, Legal, Run;
    var s1 := Next(s, run[0]);
    var s2 := Next(s1, run[1]);
    var s3 := Next(s2, run[2]);
    var s4 := Next(s3, run[3]);
    NoStep(t);
    assert run[4..][1..] == [];
    OneStep(s4, run[4..]);
    assert run[3..][1..] == run[4..] && run[2..][1..] == run[3..] && run[1..][1..] == run[2..];
    OneStep(s3, run[3..]);
    OneStep(s2, run[2..]);
    OneStep(s1, run[1..]);
    OneStep(s, run);
  }

  // ---------------------------------------------------------------- the same requests, undisturbed

  /** One handler of request 102 from its first step to its last, with nothing in between. */
  function Alone(s: Store, h: nat, garbage: int, choice: int): Store
    requires Enabled(s, Draw(h, garbage, choice))
  {
    var drawn := Next(s, Draw(h, garbage, choice));
    if !drawn.handlers[h].Drawn? then drawn
    else
      var registered := Next(drawn, Register(h));
      if registered.handlers[h].Registered? then Next(registered, Remove(h)) else registered
  }

  /** The tables of a server as this module sees them. */
  ghost predicate Sees(s: Store, d: Db) {
    s.users == d.users && s.pool == d.pool && s.groups == d.groups.Keys
  }

  /** Draw, register and remove in a row are the server's handler of request 102: same tables,
      and it tells the client the id that the handler has issued. */
  lemma AloneIsHandleRegister(s: Store, srv: Handlers.Srv, fd: int, h: nat, garbage: int, choice: int)
    requires Sees(s, srv.db) && Enabled(s, Draw(h, garbage, choice))
    ensures var t, e := Alone(s, h, garbage, choice), Handlers.HandleRegister(srv, fd, garbage, choice);
            && Sees(t, e.db)
            && t.handlers[h].Done?
            && e.sent == srv.sent + [Handlers.Sent(fd, match t.handlers[h].issued
                                                       case Some(id) => Handlers.NewId(id)
                                                       case None => Handlers.Reply(102, false))]
  {
  }

  /** One handler of request 506, likewise. */
  function GroupAlone(s: Store, h: nat, leader: int, garbage: int, choice: int): Store
    requires Enabled(s, DrawGroup(h, leader, garbage, choice))
  {
    var drawn := Next(s, DrawGroup(h, leader, garbage, choice));
    if drawn.handlers[h].GroupDrawn? then Next(drawn, InsertGroup(h)) else drawn
  }

  /** And what request 506 does to the numbers is what its two steps do. */
  lemma GroupAloneIsHandleCreateGroup(s: Store, srv: Handlers.Srv, fd: int, h: nat,
                                      usr: int, leader: int, members: MemberColumn, garbage: int, choice: int)
    requires Sees(s, srv.db) && Enabled(s, DrawGroup(h, leader, garbage, choice))
    ensures Sees(GroupAlone(s, h, leader, garbage, choice),
                 Handlers.HandleCreateGroup(srv, fd, usr, leader, members, garbage, choice).db)
  {
    CreateGroupDb(srv, fd, usr, leader, members, garbage, choice);
  }
}
