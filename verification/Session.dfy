/**
 Logging in, switching accounts and logging out: requests 99, 101 and 88 and their replies,
 over the two FIFO channels of each connection.

 After a switch the client asks the server to forget the account it had before.  The question
 is whether the server then routes to this connection exactly the messages of the account
 that is logged in.
 */
module Session {
  import opened FdTool

  datatype Msg =
    | Hello(id: int)          // 99, when the connection comes up
    | Login(id: int)          // 101
    | Switch(lastId: int)     // 88

  datatype Reply =
    | HelloReply
    | LoginReply(id: int)
    | SwitchReply

  /** The client's globals, what it has sent and the server has not read yet, and how many calls of
      newUserLogin the login window still owes. */
  datatype Client = Client(selfId: int, lastId: int, up: seq<Msg>, due: nat)

  // ---------------------------------------------------------------- the client's handlers

  function NewUserLogin(c: Client): Client {
    if c.lastId != 0 then
      if c.lastId == c.selfId then c.(lastId := 0) else c.(up := c.up + [Switch(c.lastId)])
    else c
  }

  /** A call that the login window owed. */
  function CallBack(c: Client): Client
    requires 0 < c.due
  {
    NewUserLogin(c.(due := c.due - 1))
  }

  function HandleReply(c: Client, r: Reply): Client {
    match r
    case SwitchReply => c.(lastId := 0)
    case HelloReply => c
    case LoginReply(id) => c.(selfId := id, due := c.due + 1)
  }

  function LoginRequest(c: Client, id: int): Client {
    c.(up := c.up + [Login(id)])
  }

  /** The two assignments of clearAllData. */
  function ClearAllData(c: Client): Client {
    c.(lastId := c.selfId, selfId := 0)
  }

  function Connected(c: Client): Client {
    c.(up := c.up + [Hello(c.selfId)])
  }

  class ClientState {
    var selfId: int
    var lastId: int
    var up: seq<Msg>
    var due: nat

    ghost function State(): Client
      reads this
    {
      Client(selfId, lastId, up, due)
    }

    constructor ()
      ensures State() == Client(0, 0, [], 0)
    {
      selfId, lastId, up, due := 0, 0, [], 0;
    }

    method OnNewUserLogin()
      modifies this
      ensures State() == NewUserLogin(old(State()))
    {
      if lastId != 0 {
        if lastId == selfId {
          lastId := 0;
        } else {
          up := up + [Switch(lastId)];
        }
      }
    }

    method OnCallBack()
      requires 0 < due
      modifies this
      ensures State() == CallBack(old(State()))
    {
      due := due - 1;
      OnNewUserLogin();
    }

    method OnHandleReply(r: Reply)
      modifies this
      ensures State() == HandleReply(old(State()), r)
    {
      match r {
        case SwitchReply =>
          lastId := 0;
        case HelloReply =>
        case LoginReply(id) =>
          selfId := id;
          due := due + 1; // loginReply goes to the window's thread, which calls back
      }
    }

    method OnLoginRequest(userId: int)
      modifies this
      ensures State() == LoginRequest(old(State()), userId)
    {
      up := up + [Login(userId)];
    }

    method LogOut()
      modifies this
      ensures State() == ClearAllData(old(State()))
    {
      lastId := selfId;
      selfId := 0;
    }

    method OnConnected()
      modifies this
      ensures State() == Connected(old(State()))
    {
      up := up + [Hello(selfId)];
    }
  }

  // ---------------------------------------------------------------- the server's handlers

  function Serve(online: Registry, fd: int, m: Msg): Registry {
    match m
    case Hello(u) => Added(online, u, fd)
    case Login(u) => Added(online, u, fd)
    case Switch(u) => WithoutUser(online, u)
  }

  function Answer(m: Msg): Reply {
    match m
    case Hello(_) => HelloReply
    case Login(u) => LoginReply(u)
    case Switch(_) => SwitchReply
  }

  // ---------------------------------------------------------------- all connections together

  datatype Conn = Conn(client: Client, down: seq<Reply>)

  datatype World = World(conns: map<int, Conn>, online: Registry)

  datatype Event =
    | LogIn(fd: int, id: int)
    | LogOut(fd: int)
    | SureRegister(fd: int)       // confirming a registration also calls on_newUserLogin
    | Announce(fd: int)           // the call that the login window owes after a login
    | Receive(fd: int)            // the server handles the oldest request
    | Deliver(fd: int)            // the client handles the oldest reply
    | Reconnect(fd: int)          // the connection is lost, cleaned up and made again

  /** The replies the client will still see, in their order. */
  function Answers(up: seq<Msg>): (rs: seq<Reply>)
    ensures |rs| == |up|
  {
    if up == [] then [] else [Answer(up[0])] + Answers(up[1..])
  }

  function Coming(c: Conn): seq<Reply> {
    c.down + Answers(c.client.up)
  }

  predicate NoLogin(rs: seq<Reply>) {
    forall r | r in rs :: !r.LoginReply?
  }

  /** All login answers are for `b`. */
  predicate OnlyFor(rs: seq<Reply>, b: int) {
    forall r | r in rs && r.LoginReply? :: r.id == b
  }

  /** Whoever will be logged in once the replies have been delivered to a client with `selfId`. */
  function Final(rs: seq<Reply>, selfId: int): int
    decreases |rs|
  {
    if rs == [] then selfId else Final(rs[1..], if rs[0].LoginReply? then rs[0].id else selfId)
  }

  function Acks(rs: seq<Reply>): nat {
    if rs == [] then 0 else (if rs[0].SwitchReply? then 1 else 0) + Acks(rs[1..])
  }

  /** Whether `u` is registered once the server has worked off the queue. */
  function After(now: bool, up: seq<Msg>, u: int): bool
    decreases |up|
  {
    if up == [] then now else After(Effect(now, up[0], u), up[1..], u)
  }

  function Effect(now: bool, m: Msg, u: int): bool {
    if m == Switch(u) then false else now || m == Hello(u) || m == Login(u)
  }

  function Will(c: Conn, online: Registry, u: int): bool {
    After(u in online, c.client.up, u)
  }

  function Account(c: Conn): int {
    Final(Coming(c), c.client.selfId)
  }

  /** An account belongs to one connection; `owner` says to which. */
  type Owner = int -> int

  ghost predicate Mine(owner: Owner, fd: int, u: int) {
    u != 0 && owner(u) == fd
  }

  /** What can happen at all.  The windows let their user press every button at any time. */
  ghost predicate Possible(owner: Owner, w: World, e: Event) {
    && e.fd in w.conns && e.fd > 0
    && var c := w.conns[e.fd];
       match e {
         case LogIn(fd, id) => Mine(owner, fd, id)
         case Announce(_) => c.client.due > 0
         case Receive(_) => c.client.up != []
         case Deliver(_) => c.down != []
         case _ => true
       }
  }

  /** When it is safe to press them.  Log in: when nobody else is logged in or being logged in, and
      a call that is owed will not take the account for the last one.  Log out: when nothing but
      the account that `lastId` will name is going to be registered and no acknowledgement is
      coming that would wipe it out; or, during a login, when only its account is and no call is
      owed that would take it for the last one.  Confirm a registration: when the account
      being logged in is not the last one. */
  ghost predicate Safe(owner: Owner, w: World, e: Event)
    requires e.fd in w.conns
  {
    var c := w.conns[e.fd];
    var cl, rs, f := c.client, Coming(c), Account(c);
    match e
    case LogIn(_, id) => (f == 0 || f == id) && (cl.lastId == id && cl.due > 0 ==> cl.selfId == id)
    case LogOut(fd) =>
      if NoLogin(rs) then forall u | Mine(owner, fd, u) && Will(c, w.online, u) :: u == cl.selfId && Acks(rs) == 0
      else (cl.selfId == 0 || cl.due == 0) && forall u | Mine(owner, fd, u) && Will(c, w.online, u) :: u == f
    case SureRegister(_) => f != 0 && cl.lastId == f ==> cl.selfId == f
    case _ => true
  }

  ghost predicate Enabled(owner: Owner, w: World, e: Event) {
    Possible(owner, w, e) && Safe(owner, w, e)
  }

  function Next(w: World, e: Event): World
    requires e.fd in w.conns
    requires e.Announce? ==> w.conns[e.fd].client.due > 0
    requires e.Receive? ==> w.conns[e.fd].client.up != []
    requires e.Deliver? ==> w.conns[e.fd].down != []
  {
    var c := w.conns[e.fd];
    var cl := c.client;
    match e
    case LogIn(fd, id) => w.(conns := w.conns[fd := c.(client := LoginRequest(cl, id))])
    case LogOut(fd) => w.(conns := w.conns[fd := c.(client := ClearAllData(cl))])
    case SureRegister(fd) => w.(conns := w.conns[fd := c.(client := NewUserLogin(cl))])
    case Announce(fd) => w.(conns := w.conns[fd := c.(client := CallBack(cl))])
    case Receive(fd) =>
      World(w.conns[fd := Conn(cl.(up := cl.up[1..]), c.down + [Answer(cl.up[0])])], Serve(w.online, fd, cl.up[0]))
    case Deliver(fd) => w.(conns := w.conns[fd := Conn(HandleReply(cl, c.down[0]), c.down[1..])])
    case Reconnect(fd) =>
      World(w.conns[fd := Conn(Connected(cl.(up := [])), [])], WithoutFd(w.online, fd))
  }

  ghost predicate Legal(owner: Owner, w: World, run: seq<Event>)
    decreases |run|
  {
    run == [] || (Enabled(owner, w, run[0]) && Legal(owner, Next(w, run[0]), run[1..]))
  }

  ghost function Run(owner: Owner, w: World, run: seq<Event>): World
    requires Legal(owner, w, run)
    decreases |run|
  {
    if run == [] then w else Run(owner, Next(w, run[0]), run[1..])
  }

  // ---------------------------------------------------------------- the invariant

  predicate Mentions(m: Msg, u: int) {
    m == Hello(u) || m == Login(u) || m == Switch(u)
  }

  /** Connection `fd` sends about its own accounts only. */
  ghost predicate OwnUp(owner: Owner, fd: int, up: seq<Msg>) {
    forall m, u | m in up && Mentions(m, u) && u != 0 :: owner(u) == fd
  }

  /** The account of the connection is going to be registered, and any other that is, is the last
      one and is going to be switched from, by a call that is or will be owed. */
  ghost predicate Registering(owner: Owner, fd: int, c: Conn, online: Registry) {
    var f, cl, rs := Account(c), c.client, Coming(c);
    && (f != 0 ==> Will(c, online, f))
    && (forall u | Mine(owner, fd, u) && Will(c, online, u) && u != f ::
          Acks(rs) == 0 && u == cl.lastId && (f == 0 || cl.due > 0 || !NoLogin(rs)))
  }

  /** How the client's globals go together: no call that is owed takes the account for the last
      one. */
  ghost predicate Consistent(owner: Owner, fd: int, c: Conn) {
    var f, cl, rs := Account(c), c.client, Coming(c);
    && OwnUp(owner, fd, cl.up)
    && (cl.lastId != 0 ==> owner(cl.lastId) == fd)
    && (f != 0 ==> owner(f) == fd)
    && (cl.selfId != 0 ==> cl.selfId == f)
    && OnlyFor(rs, f) && (f == 0 ==> NoLogin(rs))
    && (f != 0 && cl.lastId == f && cl.due > 0 ==> cl.selfId == f)
    && (cl.lastId != 0 && cl.lastId == cl.selfId ==> cl.due > 0)
  }

  ghost predicate ConnInv(owner: Owner, fd: int, c: Conn, online: Registry) {
    Consistent(owner, fd, c) && Registering(owner, fd, c, online)
  }

  ghost predicate Inv(owner: Owner, w: World) {
    && (forall u | u in w.online && u != 0 :: w.online[u] == owner(u))
    && (forall fd | fd in w.conns :: ConnInv(owner, fd, w.conns[fd], w.online))
  }

  // ---------------------------------------------------------------- queues

  lemma {:induction false} AnswersAppend(up: seq<Msg>, m: Msg)
    ensures Answers(up + [m]) == Answers(up) + [Answer(m)]
  {
    if up != [] {
      assert (up + [m])[1..] == up[1..] + [m];
      AnswersAppend(up[1..], m);
    }
  }

  lemma {:induction false} AfterAppend(now: bool, up: seq<Msg>, m: Msg, u: int)
    ensures After(now, up + [m], u) == Effect(After(now, up, u), m, u)
    decreases |up|
  {
    if up == [] {
      assert ([] + [m])[1..] == [];
    } else {
      assert (up + [m])[1..] == up[1..] + [m];
      AfterAppend(Effect(now, up[0], u), up[1..], m, u);
    }
  }

  lemma {:induction false} AcksAppend(rs: seq<Reply>, r: Reply)
    ensures Acks(rs + [r]) == Acks(rs) + (if r.SwitchReply? then 1 else 0)
  {
    if rs != [] {
      assert (rs + [r])[1..] == rs[1..] + [r];
      AcksAppend(rs[1..], r);
    }
  }

  lemma {:induction false} FinalAppend(rs: seq<Reply>, r: Reply, selfId: int)
    ensures Final(rs + [r], selfId) == if r.LoginReply? then r.id else Final(rs, selfId)
    decreases |rs|
  {
    if rs == [] {
      assert [r][1..] == [];
    } else {
      assert (rs + [r])[1..] == rs[1..] + [r];
      FinalAppend(rs[1..], r, if rs[0].LoginReply? then rs[0].id else selfId);
    }
  }

  lemma {:induction false} FinalWithoutLogin(rs: seq<Reply>, selfId: int)
    requires NoLogin(rs)
    ensures Final(rs, selfId) == selfId
    decreases |rs|
  {
    if rs != [] {
      assert rs[0] in rs;
      FinalWithoutLogin(rs[1..], selfId);
    }
  }

  /** With a login answer coming it does not matter who is logged in now. */
  lemma {:induction false} FinalWithLogin(rs: seq<Reply>, s: int, t: int)
    requires !NoLogin(rs)
    ensures Final(rs, s) == Final(rs, t)
    decreases |rs|
  {
    if !rs[0].LoginReply? {
      assert exists r :: r in rs[1..] && r.LoginReply?;
      FinalWithLogin(rs[1..], s, t);
    }
  }

  /** What sending a request does. */
  lemma SendEffect(c: Conn, online: Registry, m: Msg)
    ensures var d := c.(client := c.client.(up := c.client.up + [m]));
            && Coming(d) == Coming(c) + [Answer(m)]
            && Acks(Coming(d)) == Acks(Coming(c)) + (if m.Switch? then 1 else 0)
            && (NoLogin(Coming(d)) <==> NoLogin(Coming(c)) && !m.Login?)
            && Account(d) == (if m.Login? then m.id else Account(c))
            && (forall u :: Will(d, online, u) == Effect(Will(c, online, u), m, u))
  {
    hide Acks, After;
    var rs := Coming(c);
    AnswersAppend(c.client.up, m);
    assert Coming(c.(client := c.client.(up := c.client.up + [m]))) == rs + [Answer(m)];
    AcksAppend(rs, Answer(m));
    FinalAppend(rs, Answer(m), c.client.selfId);
    assert forall r :: r in rs + [Answer(m)] <==> r in rs || r == Answer(m);
    forall u
      ensures After(u in online, c.client.up + [m], u) == Effect(After(u in online, c.client.up, u), m, u)
    {
      AfterAppend(u in online, c.client.up, m, u);
    }
  }

  /** The server's turn changes neither what is coming nor what will be registered. */
  lemma ReceiveEffect(c: Conn, fd: int, online: Registry)
    requires c.client.up != []
    ensures var d := Conn(c.client.(up := c.client.up[1..]), c.down + [Answer(c.client.up[0])]);
            && Coming(d) == Coming(c)
            && (forall u :: Will(d, Serve(online, fd, c.client.up[0]), u) == Will(c, online, u))
  {
    var m := c.client.up[0];
    forall u
      ensures (u in Serve(online, fd, m)) == Effect(u in online, m, u)
    {
    }
  }

  /** What the client's turn leaves coming. */
  lemma DeliverEffect(c: Conn, online: Registry)
    requires c.down != []
    ensures var r, e := c.down[0], Conn(HandleReply(c.client, c.down[0]), c.down[1..]);
            && Coming(c) != [] && Coming(c)[0] == r && Coming(e) == Coming(c)[1..]
            && Acks(Coming(c)) == Acks(Coming(e)) + (if r.SwitchReply? then 1 else 0)
            && (NoLogin(Coming(c)) ==> NoLogin(Coming(e)) && !r.LoginReply?)
            && (NoLogin(Coming(e)) && !r.LoginReply? ==> NoLogin(Coming(c)))
            && (forall b :: OnlyFor(Coming(c), b) ==> OnlyFor(Coming(e), b) && (r.LoginReply? ==> r.id == b))
            && Account(e) == Account(c)
            && (forall u :: Will(e, online, u) == Will(c, online, u))
  {
    hide Answers, After;
    var e := Conn(HandleReply(c.client, c.down[0]), c.down[1..]);
    assert Coming(e) == Coming(c)[1..];
    assert Coming(c)[0] == c.down[0] && Coming(c)[0] in Coming(c);
    assert forall r :: r in Coming(c) <==> r == c.down[0] || r in Coming(e);
  }

  // ---------------------------------------------------------------- what each event keeps, on its own connection

  lemma LogInKeeps(owner: Owner, w: World, e: Event)
    requires Inv(owner, w) && Enabled(owner, w, e) && e.LogIn?
    ensures ConnInv(owner, e.fd, Next(w, e).conns[e.fd], w.online)
  {
    hide Coming, Acks, After, Final, Will, Account;
    var c := w.conns[e.fd];
    assert ConnInv(owner, e.fd, c, w.online);
    SendEffect(c, w.online, Login(e.id));
  }

  lemma LogOutKeeps(owner: Owner, w: World, e: Event)
    requires Inv(owner, w) && Enabled(owner, w, e) && e.LogOut?
    ensures ConnInv(owner, e.fd, Next(w, e).conns[e.fd], w.online)
  {
    hide Acks, After, Final, Answers;
    var c, d := w.conns[e.fd], Next(w, e).conns[e.fd];
    assert ConnInv(owner, e.fd, c, w.online);
    assert Coming(d) == Coming(c);
    assert forall u :: Will(d, w.online, u) == Will(c, w.online, u);
    if NoLogin(Coming(c)) {
      FinalWithoutLogin(Coming(c), c.client.selfId);
      FinalWithoutLogin(Coming(d), 0);
    } else {
      FinalWithLogin(Coming(c), c.client.selfId, 0);
    }
  }

  /** Both ways newUserLogin is called. */
  lemma NewUserLoginKeeps(owner: Owner, fd: int, c: Conn, online: Registry, d: Conn)
    requires ConnInv(owner, fd, c, online)
    requires Account(c) != 0 && c.client.lastId == Account(c) ==> c.client.selfId == Account(c)
    requires d == c.(client := NewUserLogin(c.client.(due := d.client.due)))
    requires d.client.due <= c.client.due <= d.client.due + 1
    ensures ConnInv(owner, fd, d, online)
  {
    hide Coming, Acks, After, Final, Account;
    var a, e := c.client.lastId, c.(client := c.client.(due := d.client.due));
    SameQueues(c, e, online);
    if a != 0 && a != c.client.selfId {
      SendEffect(e, online, Switch(a));
    } else {
      SameQueues(c, d, online);
    }
  }

  lemma SameQueues(c: Conn, d: Conn, online: Registry)
    requires c.down == d.down && c.client.up == d.client.up && c.client.selfId == d.client.selfId
    ensures Coming(c) == Coming(d) && Account(c) == Account(d)
    ensures forall u :: Will(c, online, u) == Will(d, online, u)
  {
  }

  lemma DeliverKeeps(owner: Owner, fd: int, c: Conn, online: Registry)
    requires ConnInv(owner, fd, c, online) && c.down != []
    ensures ConnInv(owner, fd, Conn(HandleReply(c.client, c.down[0]), c.down[1..]), online)
  {
    hide Coming, Acks, After, Final, Account, Will, NoLogin, OnlyFor;
    DeliverEffect(c, online);
  }

  lemma ReceiveKeeps(owner: Owner, fd: int, c: Conn, online: Registry)
    requires ConnInv(owner, fd, c, online) && c.client.up != []
    ensures ConnInv(owner, fd, Conn(c.client.(up := c.client.up[1..]), c.down + [Answer(c.client.up[0])]),
                    Serve(online, fd, c.client.up[0]))
  {
    hide Coming, Acks, After, Will, NoLogin, OnlyFor, Final;
    ReceiveEffect(c, fd, online);
  }

  lemma ReconnectKeeps(owner: Owner, fd: int, c: Conn, online: Registry)
    requires Consistent(owner, fd, c)
    requires forall u | u in online && u != 0 :: online[u] == owner(u)
    ensures ConnInv(owner, fd, Conn(Connected(c.client.(up := [])), []), WithoutFd(online, fd))
  {
    var d, next := Conn(Connected(c.client.(up := [])), []), WithoutFd(online, fd);
    assert d.client.up == [Hello(c.client.selfId)] && d.client.up[1..] == [];
    assert Coming(d) == [HelloReply] && Coming(d)[1..] == [];
    assert Account(d) == Final([], c.client.selfId);
    forall u | Mine(owner, fd, u)
      ensures Will(d, next, u) <==> u == c.client.selfId
    {
      assert u !in next;
      assert After(false, d.client.up, u) == After(Effect(false, Hello(c.client.selfId), u), [], u);
    }
  }

  // ---------------------------------------------------------------- the other connections

  lemma OthersKeep(owner: Owner, fd: int, c: Conn, online: Registry, next: Registry)
    requires ConnInv(owner, fd, c, online)
    requires forall u | Mine(owner, fd, u) :: u in next <==> u in online
    ensures ConnInv(owner, fd, c, next)
  {
    hide Coming, Acks, NoLogin, After, OwnUp, OnlyFor, Final;
    assert forall u | Mine(owner, fd, u) :: Will(c, next, u) == Will(c, online, u);
  }

  // ---------------------------------------------------------------- whole runs

  lemma StepKeeps(owner: Owner, w: World, e: Event)
    requires Inv(owner, w) && Enabled(owner, w, e)
    ensures Inv(owner, Next(w, e))
  {
    var fd := e.fd;
    var c := w.conns[fd];
    var next := Next(w, e);
    OnlineKeeps(owner, w, e);
    assert ConnInv(owner, fd, next.conns[fd], next.online) by {
      hide Consistent, Registering, Coming, NewUserLogin;
      match e {
        case LogIn(_, id) => LogInKeeps(owner, w, e);
        case LogOut(_) => LogOutKeeps(owner, w, e);
        case SureRegister(_) => NewUserLoginKeeps(owner, fd, c, w.online, next.conns[fd]) by {
          DueStays(c);
        }
        case Announce(_) => NewUserLoginKeeps(owner, fd, c, w.online, next.conns[fd]) by {
          DueFalls(owner, fd, c);
        }
        case Receive(_) => ReceiveKeeps(owner, fd, c, w.online);
        case Deliver(_) => DeliverKeeps(owner, fd, c, w.online);
        case Reconnect(_) => ReconnectKeeps(owner, fd, c, w.online);
      }
    }
    hide ConnInv;
    forall g | g in next.conns && g != fd
      ensures ConnInv(owner, g, next.conns[g], next.online)
    {
      OthersKeep(owner, g, w.conns[g], w.online, next.online);
    }
  }

  lemma DueStays(c: Conn)
    ensures NewUserLogin(c.client).due == c.client.due && c.client.(due := c.client.due) == c.client
  {
  }

  lemma DueFalls(owner: Owner, fd: int, c: Conn)
    requires c.client.due > 0 && Consistent(owner, fd, c)
    ensures CallBack(c.client).due == c.client.due - 1
    ensures Account(c) != 0 && c.client.lastId == Account(c) ==> c.client.selfId == Account(c)
  {
  }

  /** Only accounts of its own connection come and go by an event. */
  lemma OnlineKeeps(owner: Owner, w: World, e: Event)
    requires Inv(owner, w) && Enabled(owner, w, e)
    ensures var next := Next(w, e);
            && (forall u | u in next.online && u != 0 :: next.online[u] == owner(u))
            && (forall u | u != 0 && owner(u) != e.fd :: u in next.online <==> u in w.online)
  {
    hide Registering, Safe, Coming;
    var fd := e.fd;
    assert ConnInv(owner, fd, w.conns[fd], w.online);
    if e.Receive? {
      var m := w.conns[fd].client.up[0];
      assert m in w.conns[fd].client.up;
      assert m.Hello? ==> Mentions(m, m.id);
      assert m.Login? ==> Mentions(m, m.id);
      assert m.Switch? ==> Mentions(m, m.lastId);
    }
  }

  lemma {:induction false} RunKeeps(owner: Owner, w: World, run: seq<Event>)
    requires Inv(owner, w) && Legal(owner, w, run)
    ensures Inv(owner, Run(owner, w, run))
    decreases |run|
  {
    hide Inv, Next, Safe;
    if run != [] {
      StepKeeps(owner, w, run[0]);
      RunKeeps(owner, Next(w, run[0]), run[1..]);
    }
  }

  /** The programs have just started: nobody is logged in, every client has said hello. */
  function Begin(fds: set<int>): World {
    World(map fd | fd in fds :: Conn(Client(0, 0, [Hello(0)], 0), []), map[])
  }

  lemma BeginInv(owner: Owner, fds: set<int>)
    ensures Inv(owner, Begin(fds))
  {
    hide ConnInv;
    var w := Begin(fds);
    forall fd | fd in w.conns
      ensures ConnInv(owner, fd, w.conns[fd], w.online)
    {
      var c := Conn(Client(0, 0, [], 0), []);
      assert Coming(c) == [];
      ReconnectKeeps(owner, fd, c, map[]);
      assert [] + [Hello(0)] == [Hello(0)];
      assert WithoutFd(map[], fd) == map[];
    }
  }

  predicate Quiet(c: Conn) {
    c.client.up == [] && c.down == [] && c.client.due == 0
  }

  lemma Resting(c: Conn, online: Registry, u: int)
    requires Quiet(c)
    ensures Coming(c) == [] && Acks(Coming(c)) == 0 && NoLogin(Coming(c)) && Account(c) == c.client.selfId
    ensures Will(c, online, u) <==> u in online
  {
  }

  /** A connection at rest whose client is logged in, but for which the server has another of its
      accounts, or not the one that is logged in. */
  ghost predicate Wrong(owner: Owner, w: World, fd: int) {
    && fd in w.conns && Quiet(w.conns[fd]) && w.conns[fd].client.selfId != 0
    && exists u :: Mine(owner, fd, u) && (u in w.online) != (u == w.conns[fd].client.selfId)
  }

  lemma NeverWrong(owner: Owner, w: World, fd: int)
    requires Inv(owner, w)
    ensures !Wrong(owner, w, fd)
  {
    hide Coming, Acks, After, Account, Will;
    if fd in w.conns && Quiet(w.conns[fd]) && w.conns[fd].client.selfId != 0 {
      var c := w.conns[fd];
      assert ConnInv(owner, fd, c, w.online);
      Resting(c, w.online, c.client.selfId);
      forall u | Mine(owner, fd, u)
        ensures u in w.online <==> u == c.client.selfId
      {
        Resting(c, w.online, u);
      }
    }
  }

  /** After any sequence of logins, logouts, registrations, lost connections and message
      deliveries, on any number of connections, with every button pressed when it is safe: when
      nothing is in flight on a connection whose client is logged in, the accounts the server has
      for it are exactly the one that is logged in. */
  lemma ExactlyOneAccount(owner: Owner, fds: set<int>, run: seq<Event>, fd: int, u: int)
    requires Legal(owner, Begin(fds), run)
    requires var w := Run(owner, Begin(fds), run);
             fd in w.conns && Quiet(w.conns[fd]) && w.conns[fd].client.selfId != 0
    requires u != 0
    ensures var w := Run(owner, Begin(fds), run);
            u in w.online && w.online[u] == fd <==> u == w.conns[fd].client.selfId
  {
    hide Legal, Run;
    BeginInv(owner, fds);
    RunKeeps(owner, Begin(fds), run);
    var w := Run(owner, Begin(fds), run);
    var c := w.conns[fd];
    assert ConnInv(owner, fd, c, w.online);
    Resting(c, w.online, u);
    NeverWrong(owner, w, fd);
    if owner(u) == fd {
      assert Mine(owner, fd, u);
    }
  }
}
