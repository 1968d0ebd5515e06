/**
 That the rules of module Session are the right ones: whenever a button is pressed against them,
 whatever the state, the session can still go wrong afterwards; whenever it is pressed by them, it
 cannot.
 */
module SessionRules {
  import opened FdTool
  import opened Session

  // ---------------------------------------------------------------- letting a connection come to rest

  function UpWork(up: seq<Msg>): nat {
    if up == [] then 0 else (if up[0].Login? then 5 else 2) + UpWork(up[1..])
  }

  function DownWork(down: seq<Reply>): nat {
    if down == [] then 0 else (if down[0].LoginReply? then 4 else 1) + DownWork(down[1..])
  }

  lemma {:induction false} UpWorkAppend(up: seq<Msg>, m: Msg)
    ensures UpWork(up + [m]) == UpWork(up) + if m.Login? then 5 else 2
  {
    if up == [] {
      assert [m][1..] == [];
    } else {
      assert (up + [m])[1..] == up[1..] + [m];
      UpWorkAppend(up[1..], m);
    }
  }

  lemma {:induction false} DownWorkAppend(down: seq<Reply>, r: Reply)
    ensures DownWork(down + [r]) == DownWork(down) + if r.LoginReply? then 4 else 1
  {
    if down == [] {
      assert [r][1..] == [];
    } else {
      assert (down + [r])[1..] == down[1..] + [r];
      DownWorkAppend(down[1..], r);
    }
  }

  function Work(c: Conn): nat {
    UpWork(c.client.up) + DownWork(c.down) + 3 * c.client.due
  }

  /** The next thing to happen without the user: the login window calls back as soon as it owes a
      call (`early`) or when nothing else is left to do. */
  function Turn(c: Conn, fd: int, early: bool): (e: Event)
    requires !Quiet(c)
    ensures e.fd == fd
    ensures || (e == Announce(fd) && c.client.due > 0)
            || (e == Receive(fd) && c.client.up != [])
            || (e == Deliver(fd) && c.down != [])
  {
    if early && c.client.due > 0 then Announce(fd)
    else if c.client.up != [] then Receive(fd)
    else if c.down != [] then Deliver(fd)
    else Announce(fd)
  }

  lemma WorkFalls(w: World, fd: int, early: bool)
    requires fd in w.conns && !Quiet(w.conns[fd])
    ensures Work(Next(w, Turn(w.conns[fd], fd, early)).conns[fd]) < Work(w.conns[fd])
  {
    var c := w.conns[fd];
    if c.client.up != [] {
      DownWorkAppend(c.down, Answer(c.client.up[0]));
    }
    UpWorkAppend(c.client.up, Switch(c.client.lastId));
  }

  function Settle(w: World, fd: int, early: bool): (t: World)
    requires fd in w.conns
    ensures fd in t.conns && Quiet(t.conns[fd])
    decreases Work(w.conns[fd])
  {
    if Quiet(w.conns[fd]) then w
    else
      WorkFalls(w, fd, early);
      Settle(Next(w, Turn(w.conns[fd], fd, early)), fd, early)
  }

  // ---------------------------------------------------------------- what a turn leaves as it was

  /** One turn: the account of the connection is settled, nobody is newly registered, only the
      last account is switched from, and only when a call is due. */
  lemma TurnEffect(w: World, e: Event)
    requires e.fd in w.conns
    requires var c := w.conns[e.fd];
             || (e.Announce? && c.client.due > 0)
             || (e.Receive? && c.client.up != [])
             || (e.Deliver? && c.down != [])
    ensures var c, d, t := w.conns[e.fd], Next(w, e).conns[e.fd], Next(w, e);
            && Account(d) == Account(c)
            && (d.client.lastId == 0 || d.client.lastId == c.client.lastId)
            && (forall u :: Will(d, t.online, u) ==> Will(c, w.online, u))
            && (forall u | u != 0 && u != c.client.lastId :: Will(c, w.online, u) ==> Will(d, t.online, u))
            && (!e.Announce? || c.client.lastId == c.client.selfId ==>
                  forall u | u != 0 :: Will(c, w.online, u) ==> Will(d, t.online, u))
  {
    hide Coming, Acks, After, Account, Will;
    var c := w.conns[e.fd];
    if e.Receive? {
      ReceiveEffect(c, e.fd, w.online);
      hide Serve;
      ReceiveKeepsAccount(c, e.fd, w.online);
    } else if e.Deliver? {
      DeliverEffect(c, w.online);
    } else {
      var called := c.(client := c.client.(due := c.client.due - 1));
      SameQueues(c, called, w.online);
      SendEffect(called, w.online, Switch(c.client.lastId));
      SameQueues(c, c.(client := c.client.(due := c.client.due - 1, lastId := 0)), w.online);
    }
  }

  lemma ReceiveKeepsAccount(c: Conn, fd: int, online: Registry)
    requires c.client.up != []
    ensures Account(Conn(c.client.(up := c.client.up[1..]), c.down + [Answer(c.client.up[0])])) == Account(c)
  {
    hide Coming;
    ReceiveEffect(c, fd, online);
  }

  /** Whose account it is at the end is decided by now. */
  lemma {:induction false} SettleAccount(w: World, fd: int, early: bool)
    requires fd in w.conns
    ensures Settle(w, fd, early).conns[fd].client.selfId == Account(w.conns[fd])
    decreases Work(w.conns[fd])
  {
    hide Work, Account, Next, Turn;
    var c := w.conns[fd];
    if Quiet(c) {
      Resting(c, w.online, 0);
    } else {
      WorkFalls(w, fd, early);
      TurnEffect(w, Turn(c, fd, early));
      TurnKeepsConns(w, fd, early);
      SettleAccount(Next(w, Turn(c, fd, early)), fd, early);
    }
  }

  lemma TurnKeepsConns(w: World, fd: int, early: bool)
    requires fd in w.conns && !Quiet(w.conns[fd])
    ensures Next(w, Turn(w.conns[fd], fd, early)).conns.Keys == w.conns.Keys
  {
  }

  /** Who is not going to be registered never is. */
  lemma {:induction false} SettleLost(w: World, fd: int, early: bool, u: int)
    requires fd in w.conns && !Will(w.conns[fd], w.online, u)
    ensures u !in Settle(w, fd, early).online
    decreases Work(w.conns[fd])
  {
    hide Work, Will, Next, Turn;
    var c := w.conns[fd];
    if Quiet(c) {
      Resting(c, w.online, u);
    } else {
      WorkFalls(w, fd, early);
      TurnEffect(w, Turn(c, fd, early));
      TurnKeepsConns(w, fd, early);
      SettleLost(Next(w, Turn(c, fd, early)), fd, early, u);
    }
  }

  /** Who is going to be registered and is not the last account always is. */
  lemma {:induction false} SettleStays(w: World, fd: int, early: bool, u: int)
    requires fd in w.conns && u != 0 && Will(w.conns[fd], w.online, u) && w.conns[fd].client.lastId != u
    ensures u in Settle(w, fd, early).online && Settle(w, fd, early).conns[fd].client.lastId != u
    decreases Work(w.conns[fd])
  {
    hide Work, Will, Next, Turn;
    var c := w.conns[fd];
    if Quiet(c) {
      Resting(c, w.online, u);
    } else {
      WorkFalls(w, fd, early);
      TurnEffect(w, Turn(c, fd, early));
      TurnKeepsConns(w, fd, early);
      SettleStays(Next(w, Turn(c, fd, early)), fd, early, u);
    }
  }

  /** If the window is late, an acknowledgement that is coming saves even the last account. */
  lemma {:induction false} SettleLate(w: World, fd: int, u: int)
    requires fd in w.conns && u != 0 && Will(w.conns[fd], w.online, u)
    requires w.conns[fd].client.lastId != u || Acks(Coming(w.conns[fd])) > 0
    ensures u in Settle(w, fd, false).online && Settle(w, fd, false).conns[fd].client.lastId != u
    decreases Work(w.conns[fd])
  {
    hide Work, Will, Coming, Acks;
    var c := w.conns[fd];
    if w.conns[fd].client.lastId != u {
      SettleStays(w, fd, false, u);
    } else if Quiet(c) {
      Resting(c, w.online, u);
    } else {
      var e := Turn(c, fd, false);
      WorkFalls(w, fd, false);
      TurnEffect(w, e);
      if c.client.up != [] {
        ReceiveEffect(c, fd, w.online);
      } else if c.down != [] {
        DeliverEffect(c, w.online);
      } else {
        NothingComing(c);
      }
      SettleLate(Next(w, e), fd, u);
    }
  }

  lemma NothingComing(c: Conn)
    requires c.client.up == [] && c.down == []
    ensures Acks(Coming(c)) == 0
  {
  }

  /** The next login answer is for `b`. */
  predicate NextLogin(rs: seq<Reply>, b: int) {
    rs != [] && if rs[0].LoginReply? then rs[0].id == b else NextLogin(rs[1..], b)
  }

  /** If the window is early, the last account is saved by being logged in once more. */
  predicate Saved(c: Conn, u: int) {
    c.client.lastId == u ==>
      if c.client.due > 0 then c.client.selfId == u else NextLogin(Coming(c), u)
  }

  lemma {:induction false} SettleEarly(w: World, fd: int, u: int)
    requires fd in w.conns && u != 0 && Will(w.conns[fd], w.online, u) && Saved(w.conns[fd], u)
    ensures u in Settle(w, fd, true).online
    decreases Work(w.conns[fd])
  {
    hide Work, Will, Coming;
    var c := w.conns[fd];
    if c.client.lastId != u {
      SettleStays(w, fd, true, u);
    } else if Quiet(c) {
      Resting(c, w.online, u);
    } else {
      var e := Turn(c, fd, true);
      WorkFalls(w, fd, true);
      TurnEffect(w, e);
      if e.Receive? {
        ReceiveEffect(c, fd, w.online);
      } else if e.Deliver? {
        DeliverEffect(c, w.online);
      }
      SettleEarly(Next(w, e), fd, u);
    }
  }

  // ---------------------------------------------------------------- going wrong

  /** Some continuation, in which every button is pressed when it is safe, brings the connection
      into a wrong state. */
  ghost predicate CanGoWrong(owner: Owner, w: World, fd: int) {
    exists run :: Legal(owner, w, run) && Wrong(owner, Run(owner, w, run), fd)
  }

  lemma WrongAlready(owner: Owner, w: World, fd: int)
    requires Wrong(owner, w, fd)
    ensures CanGoWrong(owner, w, fd)
  {
    assert Legal(owner, w, []) && Run(owner, w, []) == w;
  }

  lemma WrongAfter(owner: Owner, w: World, e: Event, fd: int)
    requires Enabled(owner, w, e) && CanGoWrong(owner, Next(w, e), fd)
    ensures CanGoWrong(owner, w, fd)
  {
    hide Safe, Wrong;
    var rest :| Legal(owner, Next(w, e), rest) && Wrong(owner, Run(owner, Next(w, e), rest), fd);
    var run := [e] + rest;
    assert run[0] == e && run[1..] == rest;
    assert Legal(owner, w, run) && Run(owner, w, run) == Run(owner, Next(w, e), rest);
  }

  lemma {:induction false} WrongAfterSettle(owner: Owner, w: World, fd: int, early: bool)
    requires fd in w.conns && fd > 0 && CanGoWrong(owner, Settle(w, fd, early), fd)
    ensures CanGoWrong(owner, w, fd)
    decreases Work(w.conns[fd])
  {
    hide CanGoWrong, Work, Next, Turn;
    if !Quiet(w.conns[fd]) {
      var e := Turn(w.conns[fd], fd, early);
      WorkFalls(w, fd, early);
      TurnKeepsConns(w, fd, early);
      WrongAfterSettle(owner, Next(w, e), fd, early);
      WrongAfter(owner, w, e, fd);
    }
  }

  /** The safe side. */
  lemma NeverGoesWrong(owner: Owner, w: World, fd: int)
    requires Inv(owner, w)
    ensures !CanGoWrong(owner, w, fd)
  {
    hide Inv, Wrong;
    forall run | Legal(owner, w, run)
      ensures !Wrong(owner, Run(owner, w, run), fd)
    {
      RunKeeps(owner, w, run);
      NeverWrong(owner, Run(owner, w, run), fd);
    }
  }

  /** At the end somebody else is registered, or not the account itself. */
  lemma EndsWrong(owner: Owner, w: World, fd: int, early: bool, u: int)
    requires fd in w.conns && fd > 0 && Account(w.conns[fd]) != 0 && Mine(owner, fd, u)
    requires (u in Settle(w, fd, early).online) != (u == Account(w.conns[fd]))
    ensures CanGoWrong(owner, w, fd)
  {
    hide CanGoWrong, Account;
    SettleAccount(w, fd, early);
    WrongAlready(owner, Settle(w, fd, early), fd);
    WrongAfterSettle(owner, w, fd, early);
  }

  /** At the end nobody is logged in, but `u` is registered and not the last account; so it stays
      when the next account is logged in. */
  lemma NextLoginIsWrong(owner: Owner, w: World, fd: int, early: bool, u: int, d: int)
    requires fd in w.conns && fd > 0 && Account(w.conns[fd]) == 0
    requires Mine(owner, fd, u) && Mine(owner, fd, d) && u != d
    requires u in Settle(w, fd, early).online && Settle(w, fd, early).conns[fd].client.lastId != u
    ensures CanGoWrong(owner, w, fd)
  {
    hide CanGoWrong, Coming, Account, Will, After, Acks;
    SettleAccount(w, fd, early);
    var rested := Settle(w, fd, early);
    var c := rested.conns[fd];
    Resting(c, rested.online, u);
    var again := Next(rested, LogIn(fd, d));
    SendEffect(c, rested.online, Login(d));
    SettleStays(again, fd, early, u);
    EndsWrong(owner, again, fd, early, u);
    WrongAfter(owner, rested, LogIn(fd, d), fd);
    WrongAfterSettle(owner, w, fd, early);
  }

  // ---------------------------------------------------------------- pressing a button too soon

  lemma UnsafeLogIn(owner: Owner, w: World, e: Event)
    requires Inv(owner, w) && Possible(owner, w, e) && !Safe(owner, w, e) && e.LogIn?
    ensures CanGoWrong(owner, Next(w, e), e.fd)
  {
    hide CanGoWrong, Coming, Account, Will, After, Acks;
    var fd, c, t := e.fd, w.conns[e.fd], Next(w, e);
    assert ConnInv(owner, fd, c, w.online);
    SendEffect(c, w.online, Login(e.id));
    var f := Account(c);
    if f != 0 && f != e.id {
      SavedByLogin(owner, fd, c, e.id);
      SettleEarly(t, fd, f);
      EndsWrong(owner, t, fd, true, f);
    } else {
      CalledTooSoon(owner, t, fd);
    }
  }

  /** With another login sent after it, the account that is or will be logged in is saved. */
  lemma SavedByLogin(owner: Owner, fd: int, c: Conn, id: int)
    requires Consistent(owner, fd, c) && Account(c) != 0
    ensures Saved(c.(client := LoginRequest(c.client, id)), Account(c))
  {
    hide Acks, Answers;
    var f, rs := Account(c), Coming(c);
    AnswersAppend(c.client.up, Login(id));
    assert Coming(c.(client := LoginRequest(c.client, id))) == rs + [LoginReply(id)];
    if c.client.lastId == f && c.client.due == 0 {
      if NoLogin(rs) {
        FinalWithoutLogin(rs, c.client.selfId);
      } else {
        FirstIs(rs, f, LoginReply(id));
      }
    }
  }

  lemma {:induction false} FirstIs(rs: seq<Reply>, b: int, r: Reply)
    requires !NoLogin(rs) && OnlyFor(rs, b)
    ensures NextLogin(rs + [r], b)
  {
    assert (rs + [r])[1..] == rs[1..] + [r];
    if rs[0].LoginReply? {
      assert rs[0] in rs;
    } else {
      assert exists x :: x in rs[1..] && x.LoginReply?;
      FirstIs(rs[1..], b, r);
    }
  }

  /** A call that takes the account for the last one unregisters it. */
  lemma CalledTooSoon(owner: Owner, w: World, fd: int)
    requires fd in w.conns && fd > 0
    requires var c := w.conns[fd];
             && Account(c) != 0 && owner(Account(c)) == fd
             && c.client.lastId == Account(c) && c.client.due > 0 && c.client.selfId != Account(c)
    ensures CanGoWrong(owner, w, fd)
  {
    hide CanGoWrong, Coming, Account, Will, After, Acks;
    var c, t := w.conns[fd], Next(w, Announce(fd));
    var called := c.(client := c.client.(due := c.client.due - 1));
    SameQueues(c, called, w.online);
    SendEffect(called, w.online, Switch(c.client.lastId));
    SettleLost(t, fd, true, Account(c));
    EndsWrong(owner, t, fd, true, Account(c));
    WrongAfter(owner, w, Announce(fd), fd);
  }

  lemma UnsafeSureRegister(owner: Owner, w: World, e: Event)
    requires Inv(owner, w) && Possible(owner, w, e) && !Safe(owner, w, e) && e.SureRegister?
    ensures CanGoWrong(owner, Next(w, e), e.fd)
  {
    hide CanGoWrong, Coming, Account, Will, After, Acks;
    var fd, c, t := e.fd, w.conns[e.fd], Next(w, e);
    assert ConnInv(owner, fd, c, w.online);
    SendEffect(c, w.online, Switch(c.client.lastId));
    SettleLost(t, fd, true, Account(c));
    EndsWrong(owner, t, fd, true, Account(c));
  }

  /** `d1` and `d2` are two accounts of the connection: the next login is one of them. */
  lemma UnsafeLogOut(owner: Owner, w: World, e: Event, d1: int, d2: int)
    requires Inv(owner, w) && Possible(owner, w, e) && !Safe(owner, w, e) && e.LogOut?
    requires Mine(owner, e.fd, d1) && Mine(owner, e.fd, d2) && d1 != d2
    ensures CanGoWrong(owner, Next(w, e), e.fd)
  {
    hide CanGoWrong, Will, After, Acks, Final, Answers;
    var fd, c, t := e.fd, w.conns[e.fd], Next(w, e);
    assert ConnInv(owner, fd, c, w.online);
    var d, rs, f := t.conns[fd], Coming(c), Account(c);
    OnlyGlobals(c, d, w.online);
    if NoLogin(rs) {
      FinalWithoutLogin(rs, c.client.selfId);
      FinalWithoutLogin(rs, 0);
      var u :| Mine(owner, fd, u) && Will(c, w.online, u) && !(u == c.client.selfId && Acks(rs) == 0);
      SettleLate(t, fd, u);
      NextLoginIsWrong(owner, t, fd, false, u, if u == d1 then d2 else d1);
    } else {
      FinalWithLogin(rs, c.client.selfId, 0);
      if u :| Mine(owner, fd, u) && Will(c, w.online, u) && u != f {
        SettleStays(t, fd, true, u);
        EndsWrong(owner, t, fd, true, u);
      } else {
        CalledTooSoon(owner, t, fd);
      }
    }
  }

  lemma OnlyGlobals(c: Conn, d: Conn, online: Registry)
    requires c.down == d.down && c.client.up == d.client.up
    ensures Coming(c) == Coming(d)
    ensures forall u :: Will(c, online, u) == Will(d, online, u)
  {
  }

  /** For every state that safe presses lead to and every button, with two accounts to log in
      with: afterwards the session can go wrong if and only if the button was pressed when it was
      not safe. */
  lemma CanGoWrongIff(owner: Owner, w: World, e: Event, d1: int, d2: int)
    requires Inv(owner, w) && Possible(owner, w, e)
    requires Mine(owner, e.fd, d1) && Mine(owner, e.fd, d2) && d1 != d2
    ensures CanGoWrong(owner, Next(w, e), e.fd) <==> !Safe(owner, w, e)
  {
    hide Inv, Safe, CanGoWrong;
    if Safe(owner, w, e) {
      StepKeeps(owner, w, e);
      NeverGoesWrong(owner, Next(w, e), e.fd);
    } else {
      match e {
        case LogIn(_, _) => UnsafeLogIn(owner, w, e);
        case LogOut(_) => UnsafeLogOut(owner, w, e, d1, d2);
        case SureRegister(_) => UnsafeSureRegister(owner, w, e);
        case _ => OthersAreSafe(owner, w, e);
      }
    }
  }

  lemma OthersAreSafe(owner: Owner, w: World, e: Event)
    requires e.fd in w.conns && !e.LogIn? && !e.LogOut? && !e.SureRegister?
    ensures Safe(owner, w, e)
  {
  }

  /** Logging out while a login is under way, exactly: its account is logged in all the same, and
      whoever was going to be registered is. */
  lemma LogOutDuringLogin(owner: Owner, w: World, fd: int, early: bool, u: int)
    requires Inv(owner, w) && fd in w.conns && fd > 0 && u != 0
    requires w.conns[fd].client.selfId == 0
    ensures var t := Settle(Next(w, LogOut(fd)), fd, early);
            && t.conns[fd].client.selfId == Account(w.conns[fd])
            && (u in t.online <==> Will(w.conns[fd], w.online, u))
  {
    hide Inv, Will, Final, Answers;
    var c, t := w.conns[fd], Next(w, LogOut(fd));
    OnlyGlobals(c, t.conns[fd], w.online);
    SettleAccount(t, fd, early);
    if Will(c, w.online, u) {
      SettleStays(t, fd, early, u);
    } else {
      SettleLost(t, fd, early, u);
    }
  }

  // ---------------------------------------------------------------- states that are reached

  ghost predicate Reachable(owner: Owner, fd: int, w: World) {
    exists run :: Legal(owner, Begin({fd}), run) && Run(owner, Begin({fd}), run) == w
  }

  lemma {:induction false} RunAppend(owner: Owner, w: World, run: seq<Event>, e: Event)
    requires Legal(owner, w, run) && Enabled(owner, Run(owner, w, run), e)
    ensures Legal(owner, w, run + [e]) && Run(owner, w, run + [e]) == Next(Run(owner, w, run), e)
    decreases |run|
  {
    hide Safe;
    if run == [] {
      assert [e][1..] == [];
      assert Legal(owner, Next(w, e), []);
    } else {
      assert (run + [e])[1..] == run[1..] + [e];
      RunAppend(owner, Next(w, run[0]), run[1..], e);
    }
  }

  lemma ReachableIsInv(owner: Owner, fd: int, w: World)
    requires Reachable(owner, fd, w)
    ensures Inv(owner, w)
  {
    hide Inv, Safe;
    var run :| Legal(owner, Begin({fd}), run) && Run(owner, Begin({fd}), run) == w;
    BeginInv(owner, {fd});
    RunKeeps(owner, Begin({fd}), run);
  }

  /** With a single connection. */
  lemma Goes(owner: Owner, fd: int, w: World, e: Event, next: World)
    requires Reachable(owner, fd, w) && Enabled(owner, w, e)
    requires w.conns.Keys == {fd} == next.conns.Keys && e.fd == fd
    requires Next(w, e).conns[fd] == next.conns[fd] && Next(w, e).online == next.online
    ensures Reachable(owner, fd, next)
  {
    hide Safe, Next;
    var run :| Legal(owner, Begin({fd}), run) && Run(owner, Begin({fd}), run) == w;
    RunAppend(owner, Begin({fd}), run, e);
    SameWorld(fd, w, e, next);
  }

  lemma SameWorld(fd: int, w: World, e: Event, next: World)
    requires w.conns.Keys == {fd} == next.conns.Keys && e.fd == fd
    requires e.Announce? ==> w.conns[e.fd].client.due > 0
    requires e.Receive? ==> w.conns[e.fd].client.up != []
    requires e.Deliver? ==> w.conns[e.fd].down != []
    requires Next(w, e).conns[fd] == next.conns[fd] && Next(w, e).online == next.online
    ensures Next(w, e) == next
  {
    assert Next(w, e).conns.Keys == next.conns.Keys;
    assert Next(w, e).conns == next.conns;
  }

  /** The state of a client and a server that have one connection. */
  function One(fd: int, client: Client, down: seq<Reply>, online: Registry): World {
    World(map[fd := Conn(client, down)], online)
  }

  /** The connection has come up. */
  lemma Started(owner: Owner, fd: int)
    requires fd > 0
    ensures Reachable(owner, fd, One(fd, Client(0, 0, [], 0), [], map[0 := fd]))
  {
    hide Reachable;
    var w := One(fd, Client(0, 0, [Hello(0)], 0), [], map[]);
    assert Reachable(owner, fd, w) by {
      assert Begin({fd}).conns.Keys == w.conns.Keys;
      assert Begin({fd}).conns == w.conns;
      AtFirst(owner, fd);
    }
    var w1 := One(fd, Client(0, 0, [], 0), [HelloReply], map[0 := fd]);
    assert Next(w, Receive(fd)).conns[fd] == w1.conns[fd];
    Goes(owner, fd, w, Receive(fd), w1);
    var w2 := One(fd, Client(0, 0, [], 0), [], map[0 := fd]);
    assert Next(w1, Deliver(fd)).conns[fd] == w2.conns[fd];
    Goes(owner, fd, w1, Deliver(fd), w2);
  }

  lemma AtFirst(owner: Owner, fd: int)
    ensures Reachable(owner, fd, Begin({fd}))
  {
    assert Legal(owner, Begin({fd}), []) && Run(owner, Begin({fd}), []) == Begin({fd});
  }

  /** From rest, a login has been sent. */
  lemma LogInIsSent(owner: Owner, fd: int, b: int, lastId: int, online: Registry)
    requires fd > 0 && Mine(owner, fd, b)
    requires Reachable(owner, fd, One(fd, Client(0, lastId, [], 0), [], online))
    ensures Reachable(owner, fd, One(fd, Client(0, lastId, [Login(b)], 0), [], online))
  {
    hide Reachable;
    var w, t := One(fd, Client(0, lastId, [], 0), [], online), One(fd, Client(0, lastId, [Login(b)], 0), [], online);
    Resting(w.conns[fd], online, b);
    assert Next(w, LogIn(fd, b)).conns[fd] == t.conns[fd];
    Goes(owner, fd, w, LogIn(fd, b), t);
  }

  /** Its answer has come and the login window has called back. */
  lemma LogInIsDone(owner: Owner, fd: int, b: int, lastId: int, online: Registry)
    requires fd > 0 && Mine(owner, fd, b) && b != lastId
    requires Reachable(owner, fd, One(fd, Client(0, lastId, [Login(b)], 0), [], online))
    ensures Reachable(owner, fd, One(fd, Client(b, lastId, if lastId == 0 then [] else [Switch(lastId)], 0), [],
                                     Added(online, b, fd)))
  {
    hide Reachable;
    var next := Added(online, b, fd);
    var w := One(fd, Client(0, lastId, [Login(b)], 0), [], online);
    var w1 := One(fd, Client(0, lastId, [], 0), [LoginReply(b)], next);
    assert Next(w, Receive(fd)).conns[fd] == w1.conns[fd];
    Goes(owner, fd, w, Receive(fd), w1);
    hide Added;
    LogInIsCalledBack(owner, fd, b, lastId, next);
  }

  lemma LogInIsCalledBack(owner: Owner, fd: int, b: int, lastId: int, online: Registry)
    requires fd > 0 && Mine(owner, fd, b) && b != lastId
    requires Reachable(owner, fd, One(fd, Client(0, lastId, [], 0), [LoginReply(b)], online))
    ensures Reachable(owner, fd, One(fd, Client(b, lastId, if lastId == 0 then [] else [Switch(lastId)], 0), [],
                                     online))
  {
    hide Reachable;
    var w := One(fd, Client(0, lastId, [], 0), [LoginReply(b)], online);
    var w1 := One(fd, Client(b, lastId, [], 1), [], online);
    assert Next(w, Deliver(fd)).conns[fd] == w1.conns[fd];
    Goes(owner, fd, w, Deliver(fd), w1);
    var w2 := One(fd, Client(b, lastId, if lastId == 0 then [] else [Switch(lastId)], 0), [], online);
    assert Next(w1, Announce(fd)).conns[fd] == w2.conns[fd];
    Goes(owner, fd, w1, Announce(fd), w2);
  }

  /** An account has been logged in and out again. */
  lemma LoggedOutAgain(owner: Owner, fd: int, a: int)
    requires fd > 0 && Mine(owner, fd, a)
    ensures Reachable(owner, fd, One(fd, Client(0, a, [], 0), [], map[0 := fd, a := fd]))
  {
    hide Reachable;
    Started(owner, fd);
    LogInIsSent(owner, fd, a, 0, map[0 := fd]);
    LogInIsDone(owner, fd, a, 0, map[0 := fd]);
    var online := map[0 := fd, a := fd];
    assert Added(map[0 := fd], a, fd) == online;
    var w, t := One(fd, Client(a, 0, [], 0), [], online), One(fd, Client(0, a, [], 0), [], online);
    ReachableIsInv(owner, fd, w);
    RestingLogOut(owner, fd, w);
    assert Next(w, LogOut(fd)).conns[fd] == t.conns[fd];
    Goes(owner, fd, w, LogOut(fd), t);
  }

  /** Once all is done, logging out is safe. */
  lemma RestingLogOut(owner: Owner, fd: int, w: World)
    requires Inv(owner, w) && fd in w.conns && Quiet(w.conns[fd]) && w.conns[fd].client.selfId != 0
    ensures Safe(owner, w, LogOut(fd))
  {
    hide Coming, Account, Will, Acks;
    var c := w.conns[fd];
    assert ConnInv(owner, fd, c, w.online);
    Resting(c, w.online, 0);
  }

  // ---------------------------------------------------------------- and buttons that go wrong in them

  /** From here on the button makes the session go wrong. */
  ghost predicate Trap(owner: Owner, fd: int, w: World, e: Event) {
    && Reachable(owner, fd, w) && e.fd == fd && Possible(owner, w, e)
    && CanGoWrong(owner, Next(w, e), fd)
  }

  lemma IsTrap(owner: Owner, fd: int, w: World, e: Event, d1: int, d2: int)
    requires Reachable(owner, fd, w) && e.fd == fd && Possible(owner, w, e) && !Safe(owner, w, e)
    requires Mine(owner, fd, d1) && Mine(owner, fd, d2) && d1 != d2
    ensures Trap(owner, fd, w, e)
  {
    hide Safe, CanGoWrong, Inv;
    ReachableIsInv(owner, fd, w);
    CanGoWrongIff(owner, w, e, d1, d2);
  }

  /** Logging out before a switch is acknowledged: the late acknowledgement wipes out the new
      `lastId`.  Every login of a second account goes through this state. */
  lemma EarlyLogOut(owner: Owner, fd: int, a: int, b: int)
    requires fd > 0 && Mine(owner, fd, a) && Mine(owner, fd, b) && a != b
    ensures Trap(owner, fd, One(fd, Client(b, a, [Switch(a)], 0), [], map[0 := fd, a := fd, b := fd]), LogOut(fd))
  {
    hide Reachable, Trap;
    var online := map[0 := fd, a := fd, b := fd];
    LoggedOutAgain(owner, fd, a);
    LogInIsSent(owner, fd, b, a, map[0 := fd, a := fd]);
    LogInIsDone(owner, fd, b, a, map[0 := fd, a := fd]);
    assert Added(map[0 := fd, a := fd], b, fd) == online;
    var w := One(fd, Client(b, a, [Switch(a)], 0), [], online);
    var c := w.conns[fd];
    assert c.client.up[1..] == [];
    assert Coming(c) == [SwitchReply] && Acks(Coming(c)[1..]) == 0;
    assert Will(c, online, b) == After(Effect(true, Switch(a), b), [], b);
    assert !Safe(owner, w, LogOut(fd));
    IsTrap(owner, fd, w, LogOut(fd), a, b);
  }

  /** Leaving the home window, which opens after four seconds whether or not the answer has come,
      while the login after `a` is still under way: `a` stays registered. */
  lemma LogOutBeforeTheAnswer(owner: Owner, fd: int, a: int, b: int)
    requires fd > 0 && Mine(owner, fd, a) && Mine(owner, fd, b) && a != b
    ensures Trap(owner, fd, One(fd, Client(0, a, [Login(b)], 0), [], map[0 := fd, a := fd]), LogOut(fd))
  {
    hide Reachable, Trap;
    var online := map[0 := fd, a := fd];
    LoggedOutAgain(owner, fd, a);
    LogInIsSent(owner, fd, b, a, online);
    var w := One(fd, Client(0, a, [Login(b)], 0), [], online);
    UnderWay(w.conns[fd], b, online, a);
    assert Mine(owner, fd, a) && Will(w.conns[fd], online, a);
    assert !Safe(owner, w, LogOut(fd));
    IsTrap(owner, fd, w, LogOut(fd), a, b);
  }

  lemma UnderWay(c: Conn, b: int, online: Registry, u: int)
    requires c.down == [] && c.client.up == [Login(b)] && c.client.selfId == 0
    ensures Coming(c) == [LoginReply(b)] && !NoLogin(Coming(c)) && Account(c) == b
    ensures Will(c, online, u) <==> u in online || u == b
  {
    assert c.client.up[1..] == [];
    assert Coming(c) == [LoginReply(b)];
    assert LoginReply(b) in Coming(c) && Coming(c)[1..] == [];
    assert Final(Coming(c), 0) == Final(Coming(c)[1..], b);
    assert Will(c, online, u) == After(Effect(u in online, Login(b), u), [], u);
  }

  /** Leaving the home window is safe if no account was logged in before; but then the login window
      is back, and a second login is not safe while the first is under way. */
  lemma SecondLogIn(owner: Owner, fd: int, a: int, b: int)
    requires fd > 0 && Mine(owner, fd, a) && Mine(owner, fd, b) && a != b
    ensures var w := One(fd, Client(0, 0, [Login(a)], 0), [], map[0 := fd]);
            Enabled(owner, w, LogOut(fd)) && Next(w, LogOut(fd)) == w && Trap(owner, fd, w, LogIn(fd, b))
  {
    hide Reachable, Trap;
    Started(owner, fd);
    LogInIsSent(owner, fd, a, 0, map[0 := fd]);
    var w := One(fd, Client(0, 0, [Login(a)], 0), [], map[0 := fd]);
    forall u
      ensures Will(w.conns[fd], w.online, u) <==> u in w.online || u == a
    {
      UnderWay(w.conns[fd], a, w.online, u);
    }
    UnderWay(w.conns[fd], a, w.online, a);
    assert Enabled(owner, w, LogOut(fd));
    SameWorld(fd, w, LogOut(fd), w);
    assert !Safe(owner, w, LogIn(fd, b));
    IsTrap(owner, fd, w, LogIn(fd, b), a, b);
  }

  /** An account that has been logged out is logged in again, and while the answer is on its way a
      registration is confirmed: the account is the one that the server is asked to forget. */
  lemma RegistrationDuringLogIn(owner: Owner, fd: int, a: int, b: int)
    requires fd > 0 && Mine(owner, fd, a) && Mine(owner, fd, b) && a != b
    ensures Trap(owner, fd, One(fd, Client(0, a, [Login(a)], 0), [], map[0 := fd, a := fd]), SureRegister(fd))
  {
    hide Reachable, Trap;
    var online := map[0 := fd, a := fd];
    LoggedOutAgain(owner, fd, a);
    LogInIsSent(owner, fd, a, a, online);
    var w := One(fd, Client(0, a, [Login(a)], 0), [], online);
    UnderWay(w.conns[fd], a, online, a);
    assert !Safe(owner, w, SureRegister(fd));
    IsTrap(owner, fd, w, SureRegister(fd), a, b);
  }
}
