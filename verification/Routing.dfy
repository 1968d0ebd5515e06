/**
 The session protocol on the real server: requests 88, 99 and 101 and the end of a stream, among
 whatever else the server is asked to do.
 */
module Routing {
  import opened Wrappers
  import opened FdTool
  import opened Handlers
  import Misrouting
  import Session

  // ---------------------------------------------------------------- one request

  function RequestOf(m: Session.Msg): Request {
    match m
    case Hello(u) => Identify(u, false)
    case Login(u) => Identify(u, true)
    case Switch(u) => SwitchAccount(u)
  }

  function PacketOf(r: Session.Reply): Packet {
    match r
    case HelloReply => Reply(99, true)
    case LoginReply(_) => Reply(101, true)
    case SwitchReply => Reply(88, true)
  }

  /** The server of module Session is the server of module Handlers: the same registry, and the
      answer goes out on the connection that asked. */
  lemma ServeIsHandle(s: Srv, fd: int, m: Session.Msg)
    ensures var t := Handle(s, fd, RequestOf(m));
            && t.online == Session.Serve(s.online, fd, m)
            && t.sent == s.sent + [Sent(fd, PacketOf(Session.Answer(m)))]
            && t.db == s.db && t.groups == s.groups
  {
  }

  // ---------------------------------------------------------------- whole runs

  /** What a run of the session protocol asks of the server. */
  function CallsOf(owner: Session.Owner, w: Session.World, run: seq<Session.Event>): seq<Call>
    requires Session.Legal(owner, w, run)
    decreases |run|
  {
    if run == [] then []
    else
      (match run[0]
       case Receive(fd) => [Call(fd, RequestOf(w.conns[fd].client.up[0]))]
       case Reconnect(fd) => [Call(fd, Disconnect)]
       case _ => [])
      + CallsOf(owner, Session.Next(w, run[0]), run[1..])
  }

  predicate Registers(r: Request) {
    r.Identify? || r.SwitchAccount? || r.Disconnect?
  }

  /** The calls of a run that have to do with the session. */
  function Registering(calls: seq<Call>): seq<Call> {
    if calls == [] then []
    else (if Registers(calls[0].request) then [calls[0]] else []) + Registering(calls[1..])
  }

  lemma {:induction false} OthersDoNotCount(s: Srv, t: Srv, calls: seq<Call>)
    requires s.online == t.online
    ensures Run(s, calls).online == Run(t, Registering(calls)).online
    decreases |calls|
  {
    hide Handle;
    if calls != [] {
      var fd, r := calls[0].fd, calls[0].request;
      Misrouting.OnlineAfter(s, fd, r);
      if Registers(r) {
        Misrouting.OnlineAfter(t, fd, r);
        assert Registering(calls)[1..] == Registering(calls[1..]);
        OthersDoNotCount(Handle(s, fd, r), Handle(t, fd, r), calls[1..]);
      } else {
        assert Registering(calls) == Registering(calls[1..]);
        OthersDoNotCount(Handle(s, fd, r), t, calls[1..]);
      }
    }
  }

  lemma {:induction false} SessionIsServerRun(owner: Session.Owner, w: Session.World, run: seq<Session.Event>, s: Srv)
    requires Session.Legal(owner, w, run) && s.online == w.online
    ensures Run(s, CallsOf(owner, w, run)).online == Session.Run(owner, w, run).online
    decreases |run|
  {
    hide Handle;
    if run != [] {
      var e := run[0];
      var next, rest := Session.Next(w, e), CallsOf(owner, Session.Next(w, e), run[1..]);
      match e {
        case Receive(fd) =>
          var c := Call(fd, RequestOf(w.conns[fd].client.up[0]));
          ServeIsHandle(s, fd, w.conns[fd].client.up[0]);
          assert ([c] + rest)[1..] == rest;
          SessionIsServerRun(owner, next, run[1..], Handle(s, fd, c.request));
        case Reconnect(fd) =>
          Misrouting.OnlineAfter(s, fd, Disconnect);
          assert ([Call(fd, Disconnect)] + rest)[1..] == rest;
          SessionIsServerRun(owner, next, run[1..], Handle(s, fd, Disconnect));
        case _ =>
          assert [] + rest == rest;
          SessionIsServerRun(owner, next, run[1..], s);
      }
    }
  }

  /** A run of the server, from its start, with any requests of any kind between those of the
      session protocol: when nothing is in flight on a connection whose client is logged in, the
      server finds this connection for the account that is logged in and for no other. */
  lemma ServerRoutesToTheAccount(owner: Session.Owner, fds: set<int>, run: seq<Session.Event>, s: Srv, calls: seq<Call>,
                                 fd: int, u: int)
    requires Misrouting.Started(s) && Session.Legal(owner, Session.Begin(fds), run)
    requires Registering(calls) == CallsOf(owner, Session.Begin(fds), run)
    requires var w := Session.Run(owner, Session.Begin(fds), run);
             fd in w.conns && Session.Quiet(w.conns[fd]) && w.conns[fd].client.selfId != 0
    requires u != 0 && fd > 0
    ensures var w := Session.Run(owner, Session.Begin(fds), run);
            FdOf(Run(s, calls).online, u) == fd <==> u == w.conns[fd].client.selfId
  {
    hide Run;
    OthersDoNotCount(s, s, calls);
    SessionIsServerRun(owner, Session.Begin(fds), run, s);
    Session.ExactlyOneAccount(owner, fds, run, fd, u);
  }

  // ---------------------------------------------------------------- a connection that is made anew

  /** The descriptor that the server has for `u`, if any, after a call. */
  function Entry(e: Option<int>, c: Call, u: int): Option<int> {
    match c.request
    case Identify(v, _) => if v == u && e.None? then Some(c.fd) else e
    case SwitchAccount(v) => if v == u then None else e
    case Disconnect => if e == Some(c.fd) then None else e
    case _ => e
  }

  function EntryOf(m: Registry, u: int): Option<int> {
    if u in m then Some(m[u]) else None
  }

  function EntryAfter(e: Option<int>, calls: seq<Call>, u: int): Option<int>
    decreases |calls|
  {
    if calls == [] then e else EntryAfter(Entry(e, calls[0], u), calls[1..], u)
  }

  lemma {:induction false} EntryOfRun(s: Srv, calls: seq<Call>, u: int)
    ensures EntryOf(Run(s, calls).online, u) == EntryAfter(EntryOf(s.online, u), calls, u)
    decreases |calls|
  {
    hide Handle;
    if calls != [] {
      Misrouting.OnlineAfter(s, calls[0].fd, calls[0].request);
      EntryOfRun(Handle(s, calls[0].fd, calls[0].request), calls[1..], u);
    }
  }

  /** No call has to do with the user's entry at either descriptor. */
  predicate Aside(calls: seq<Call>, u: int, was: int, now: int) {
    forall c | c in calls ::
      match c.request
      case Identify(v, _) => v != u
      case SwitchAccount(v) => v != u
      case Disconnect => c.fd != was && c.fd != now
      case _ => true
  }

  lemma {:induction false} AsideChangesNothing(e: Option<int>, calls: seq<Call>, u: int, was: int, now: int)
    requires Aside(calls, u, was, now) && e in {None, Some(was), Some(now)}
    ensures EntryAfter(e, calls, u) == e
    decreases |calls|
  {
    if calls != [] {
      assert calls[0] in calls;
      assert forall c :: c in calls[1..] ==> c in calls;
      AsideChangesNothing(e, calls[1..], u, was, now);
    }
  }

  lemma {:induction false} EntryInParts(e: Option<int>, a: seq<Call>, b: seq<Call>, u: int)
    ensures EntryAfter(e, a + b, u) == EntryAfter(EntryAfter(e, a, u), b, u)
    decreases |a|
  {
    if a == [] {
      assert a + b == b;
    } else {
      assert (a + b)[1..] == a[1..] + b;
      EntryInParts(Entry(e, a[0], u), a[1..], b, u);
    }
  }

  /** A client that was logged in as `u` loses its connection and makes a new one, on another
      descriptor: it announces itself there (99), and the server finds the end of the old stream,
      in one order or the other, with any other requests before, between and after.  At the end
      the user is registered at the new descriptor if and only if the old one was cleaned up
      first; otherwise he is registered nowhere, although logged in. */
  lemma ReconnectedIff(s: Srv, before: seq<Call>, first: Call, between: seq<Call>, second: Call, after: seq<Call>,
                       u: int, was: int, now: int)
    requires was != now && u in s.online && s.online[u] == was
    requires Aside(before, u, was, now) && Aside(between, u, was, now) && Aside(after, u, was, now)
    requires var gone, back := Call(was, Disconnect), Call(now, Identify(u, false));
             (first == gone && second == back) || (first == back && second == gone)
    ensures var t := Run(s, before + [first] + between + [second] + after);
            && EntryOf(t.online, u) in {None, Some(now)}
            && (EntryOf(t.online, u) == Some(now) <==> first == Call(was, Disconnect))
  {
    hide EntryAfter, Run;
    var e := Some(was);
    var calls := before + [first] + between + [second] + after;
    EntryOfRun(s, calls, u);
    EntryInParts(e, before + [first] + between + [second], after, u);
    EntryInParts(e, before + [first] + between, [second], u);
    EntryInParts(e, before + [first], between, u);
    EntryInParts(e, before, [first], u);
    AsideChangesNothing(e, before, u, was, now);
    var e1 := Entry(e, first, u);
    OneCall(e, first, u);
    AsideChangesNothing(e1, between, u, was, now);
    var e2 := Entry(e1, second, u);
    OneCall(e1, second, u);
    AsideChangesNothing(e2, after, u, was, now);
  }

  lemma OneCall(e: Option<int>, c: Call, u: int)
    ensures EntryAfter(e, [c], u) == Entry(e, c, u)
  {
    assert [c][1..] == [];
  }
}
