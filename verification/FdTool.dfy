/** The registry of online users, user id to file descriptor. */
module FdTool {

  type Registry = map<int, int>

  /** std::map::insert: an entry that is there already stays. */
  function Added(m: Registry, usrId: int, fd: int): (r: Registry)
    ensures r.Keys == m.Keys + {usrId}
    ensures forall u | u in m :: r[u] == m[u]
    ensures usrId !in m ==> r[usrId] == fd
  {
    if usrId in m then m else m[usrId := fd]
  }

  function WithoutFd(m: Registry, fd: int): Registry {
    map u | u in m && m[u] != fd :: m[u]
  }

  function WithoutUser(m: Registry, usrId: int): Registry {
    map u | u in m && u != usrId :: m[u]
  }

  function FdOf(m: Registry, usrId: int): int {
    if usrId in m then m[usrId] else -1
  }

  class OnlineFds {
    var onlineFds: Registry

    constructor ()
      ensures onlineFds == map[]
    {
      onlineFds := map[];
    }

    method AddOnlineFd(usrId: int, fd: int)
      modifies this
      ensures onlineFds == Added(old(onlineFds), usrId, fd)
    {
      if usrId !in onlineFds {
        onlineFds := onlineFds[usrId := fd];
      }
    }

    /** Scan all entries and erase those of the descriptor: exactly the others remain. */
    method DeleteOnlineFd(fd: int)
      modifies this
      ensures onlineFds == WithoutFd(old(onlineFds), fd)
    {
      var todo := onlineFds.Keys;
      while exists u :: u in todo
        invariant todo <= onlineFds.Keys
        invariant onlineFds.Keys <= old(onlineFds).Keys
        invariant forall u | u in onlineFds :: onlineFds[u] == old(onlineFds)[u]
        invariant forall u | u in old(onlineFds) && u !in todo :: u in onlineFds <==> old(onlineFds)[u] != fd
        decreases todo
      {
        var it :| it in todo;
        todo := todo - {it};
        if onlineFds[it] != fd {
          continue;
        }
        onlineFds := onlineFds - {it};
      }
      ghost var left := WithoutFd(old(onlineFds), fd);
      forall u
        ensures u in onlineFds <==> u in left
      {
        assert u !in todo;
        if u in left {
          assert u in old(onlineFds) && old(onlineFds)[u] != fd;
        }
      }
      assert onlineFds.Keys == left.Keys;
      assert forall u | u in left :: left[u] == onlineFds[u];
      assert onlineFds == left;
    }

    method DeleteUser(userId: int)
      modifies this
      ensures onlineFds == WithoutUser(old(onlineFds), userId)
    {
      onlineFds := onlineFds - {userId};
    }

    method GetOnlineFd(usrId: int) returns (fd: int)
      ensures fd == FdOf(onlineFds, usrId)
    {
      if usrId in onlineFds {
        return onlineFds[usrId];
      }
      return -1;
    }
  }
}
