/**
 What the registry promises over the life of the connections: what is meant for a user never goes
 to a stranger's connection.  The server is the state machine of module Handlers; here it is run
 together with the descriptors that accept(2) hands out and close(2) takes back.
 */
module Misrouting {
  import opened FdTool
  import opened Handlers
  import Frames
  import opened Delivery

  // ---------------------------------------------------------------- what requests do to the registry

  /** The registry after a request: 99 and 101 add, 88 and the end of the stream remove, and no
      other request touches it. */
  lemma OnlineAfter(s: Srv, fd: int, r: Request)
    ensures Handle(s, fd, r).online ==
            match r {
              case Identify(u, _) => Added(s.online, u, fd)
              case SwitchAccount(u) => WithoutUser(s.online, u)
              case Disconnect => WithoutFd(s.online, fd)
              case _ => s.online
            }
  {
    if !Frames.TouchesOnline(r) {
      hide Handle;
      Frames.Frame(s, fd, r);
    }
  }

  // ---------------------------------------------------------------- connections

  /** What happens to connections, one worker each. */
  datatype Event =
    | Accept(fd: int)                     // accept(2) hands out a free descriptor
    | Serve(fd: int, request: Request)    // a request comes in on it
    | HangUp(fd: int)                     // end of stream: DeleteOnlineFd
    | Close(fd: int)                      // close(2), after it

  datatype Net = Net(srv: Srv, open: set<int>, closing: set<int>)

  predicate Enabled(n: Net, e: Event) {
    match e
    case Accept(fd) => 0 < fd && fd !in n.open
    case Serve(fd, r) => fd in n.open && fd !in n.closing && !r.Disconnect?
    case HangUp(fd) => fd in n.open && fd !in n.closing
    case Close(fd) => fd in n.closing
  }

  function Next(n: Net, e: Event): Net {
    match e
    case Accept(fd) => n.(open := n.open + {fd})
    case Serve(fd, r) => n.(srv := Handle(n.srv, fd, r))
    case HangUp(fd) => n.(srv := Handle(n.srv, fd, Disconnect), closing := n.closing + {fd})
    case Close(fd) => n.(open := n.open - {fd}, closing := n.closing - {fd})
  }

  /** A server that has just been started. */
  predicate Started(s0: Srv) {
    s0.online == map[]
  }

  /** The state after a history of events, the latest one last. */
  function After(s0: Srv, history: seq<Event>): Net {
    if history == [] then Net(s0, {}, {})
    else Next(After(s0, history[..|history| - 1]), history[|history| - 1])
  }

  predicate Legal(s0: Srv, history: seq<Event>) {
    history == [] ||
    (Legal(s0, history[..|history| - 1]) && Enabled(After(s0, history[..|history| - 1]), history[|history| - 1]))
  }

  predicate Announces(e: Event, fd: int, usrId: int) {
    e.Serve? && e.fd == fd && e.request.Identify? && e.request.usr == usrId
  }

  /** The connection that has `fd` now has announced itself as `usrId`. */
  ghost predicate Announced(history: seq<Event>, fd: int, usrId: int) {
    exists i :: 0 <= i < |history| && Announces(history[i], fd, usrId)
                && forall j | i < j < |history| :: history[j] != Accept(fd)
  }

  ghost predicate Safe(s0: Srv, history: seq<Event>) {
    var n := After(s0, history);
    && n.closing <= n.open
    && forall u | u in n.srv.online ::
         && 0 < n.srv.online[u]
         && n.srv.online[u] in n.open && n.srv.online[u] !in n.closing
         && Announced(history, n.srv.online[u], u)
  }

  lemma AnnouncedStays(history: seq<Event>, e: Event, fd: int, usrId: int)
    requires Announced(history, fd, usrId) && e != Accept(fd)
    ensures Announced(history + [e], fd, usrId)
  {
    var i :| 0 <= i < |history| && Announces(history[i], fd, usrId)
             && forall j | i < j < |history| :: history[j] != Accept(fd);
    var h := history + [e];
    assert Announces(h[i], fd, usrId);
    assert forall j | i < j < |h| :: h[j] != Accept(fd);
  }

  lemma AnnouncedNow(history: seq<Event>, e: Event, fd: int, usrId: int)
    requires Announces(e, fd, usrId)
    ensures Announced(history + [e], fd, usrId)
  {
    var h := history + [e];
    assert Announces(h[|history|], fd, usrId);
  }

  ghost predicate OpenPositive(s0: Srv, history: seq<Event>) {
    forall fd | fd in After(s0, history).open :: 0 < fd
  }

  lemma StepIsSafe(s0: Srv, before: seq<Event>, e: Event)
    requires Safe(s0, before) && OpenPositive(s0, before) && Enabled(After(s0, before), e)
    ensures Safe(s0, before + [e]) && OpenPositive(s0, before + [e])
  {
    hide Announced, Handle;
    var history := before + [e];
    assert history[..|history| - 1] == before;
    var m, n := After(s0, before), After(s0, history);
    if e.Serve? {
      OnlineAfter(m.srv, e.fd, e.request);
    } else if e.HangUp? {
      OnlineAfter(m.srv, e.fd, Disconnect);
    }
    forall u | u in n.srv.online
      ensures Announced(history, n.srv.online[u], u)
    {
      if u in m.srv.online {
        AnnouncedStays(before, e, m.srv.online[u], u);
      } else {
        AnnouncedNow(before, e, n.srv.online[u], u);
      }
    }
  }

  lemma {:induction false} AlwaysSafe(s0: Srv, history: seq<Event>)
    requires Started(s0) && Legal(s0, history)
    ensures Safe(s0, history) && OpenPositive(s0, history)
  {
    hide Enabled, Next;
    if history == [] {
      NothingIsSafe(s0);
    } else {
      var before, e := history[..|history| - 1], history[|history| - 1];
      hide Safe, After;
      AlwaysSafe(s0, before);
      assert history == before + [e];
      StepIsSafe(s0, before, e);
    }
  }

  lemma NothingIsSafe(s0: Srv)
    requires Started(s0)
    ensures Safe(s0, []) && OpenPositive(s0, [])
  {
  }

  /** No misrouting: whenever the server finds a descriptor for a user, it is that of an open
      connection which has itself announced that user since it was accepted. */
  lemma NoMisrouting(s0: Srv, history: seq<Event>, usrId: int)
    requires Started(s0) && Legal(s0, history)
    requires FdOf(After(s0, history).srv.online, usrId) > 0
    ensures FdOf(After(s0, history).srv.online, usrId) in After(s0, history).open
    ensures Announced(history, FdOf(After(s0, history).srv.online, usrId), usrId)
  {
    AlwaysSafe(s0, history);
  }

  /** A descriptor that is handed out again inherits nobody. */
  lemma FreshDescriptorIsNobodys(s0: Srv, history: seq<Event>, fd: int)
    requires Started(s0) && Legal(s0, history + [Accept(fd)])
    ensures forall u | u in After(s0, history + [Accept(fd)]).srv.online ::
              After(s0, history + [Accept(fd)]).srv.online[u] != fd
  {
    var now := history + [Accept(fd)];
    assert now[..|now| - 1] == history;
    AlwaysSafe(s0, history);
  }

  // ---------------------------------------------------------------- everything that is ever sent

  /** The `i`-th packet sent went out with the `k`-th event. */
  ghost predicate SentWith(s0: Srv, history: seq<Event>, k: nat, i: nat)
    requires k < |history|
  {
    |After(s0, history[..k]).srv.sent| <= i < |After(s0, history[..k + 1]).srv.sent|
  }

  /** At the moment when the `i`-th packet went out, its descriptor was open and had announced its
      recipient since it was accepted. */
  ghost predicate WentHome(s0: Srv, history: seq<Event>, i: nat, p: Sent)
    requires ForUser(p.packet)
  {
    exists k: nat :: k < |history| && SentWith(s0, history, k, i)
      && p.fd in After(s0, history[..k]).open
      && Announced(history[..k], p.fd, p.packet.recipient)
  }

  lemma WentHomeStays(s0: Srv, before: seq<Event>, e: Event, i: nat, p: Sent)
    requires ForUser(p.packet) && WentHome(s0, before, i, p)
    ensures WentHome(s0, before + [e], i, p)
  {
    var k: nat :| k < |before| && SentWith(s0, before, k, i)
             && p.fd in After(s0, before[..k]).open
             && Announced(before[..k], p.fd, p.packet.recipient);
    var history := before + [e];
    assert history[..k] == before[..k] && history[..k + 1] == before[..k + 1];
    assert SentWith(s0, history, k, i);
  }

  /** Over every run of the server: every text and every piece of a file that it ever sent went to
      a connection that was open at that moment and had announced the recipient since it was
      accepted. */
  lemma {:induction false} EverythingWentHome(s0: Srv, history: seq<Event>, i: nat)
    requires Started(s0) && Legal(s0, history)
    requires |s0.sent| <= i < |After(s0, history).srv.sent| && ForUser(After(s0, history).srv.sent[i].packet)
    ensures WentHome(s0, history, i, After(s0, history).srv.sent[i])
  {
    hide Handle, Announced, Safe, OpenPositive, WellAddressed, WentHome;
    if history != [] {
      var before, e := history[..|history| - 1], history[|history| - 1];
      var m, p := After(s0, before), After(s0, history).srv.sent[i];
      assert history == before + [e];
      SentBy(m, e);
      if i < |m.srv.sent| {
        EverythingWentHome(s0, before, i);
        WentHomeStays(s0, before, e, i, p);
      } else {
        NoMisrouting(s0, before, p.packet.recipient);
        assert history[..|before| + 1] == history;
        Home(s0, history, |before|, i, p);
      }
    }
  }

  lemma Home(s0: Srv, history: seq<Event>, k: nat, i: nat, p: Sent)
    requires k < |history| && ForUser(p.packet) && SentWith(s0, history, k, i)
    requires p.fd in After(s0, history[..k]).open && Announced(history[..k], p.fd, p.packet.recipient)
    ensures WentHome(s0, history, i, p)
  {
  }

  lemma SentBy(m: Net, e: Event)
    ensures var a, b := m.srv.sent, Next(m, e).srv.sent;
            && a <= b
            && forall i | |a| <= i < |b| && ForUser(b[i].packet) ::
                 b[i].fd == FdOf(m.srv.online, b[i].packet.recipient) > 0
  {
    hide Handle;
    if e.Serve? {
      TextsGoToTheirRecipient(m.srv, e.fd, e.request);
    } else if e.HangUp? {
      TextsGoToTheirRecipient(m.srv, e.fd, Disconnect);
    }
  }
}
