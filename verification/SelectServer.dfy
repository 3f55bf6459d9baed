/** The descriptor bookkeeping of the select loop: the watched set, its maximum and the
    connection slots. */
module SelectServer {

  import opened SelectModel

  /** A connection slot; fd == -1 marks it free. */
  datatype Conn = Conn(fd: int, recvLen: int, requestCount: nat, lastActivity: int)

  /** The descriptors in the slots. */
  function Fds(conns: seq<Conn>): set<int> {
    if conns == [] then {}
    else
      var last := conns[|conns| - 1].fd;
      Fds(conns[..|conns| - 1]) + if last == -1 then {} else {last}
  }

  /** No descriptor has two slots. */
  predicate OneSlotEach(conns: seq<Conn>) {
    forall i, j :: 0 <= i < j < |conns| && conns[i].fd != -1 ==> conns[i].fd != conns[j].fd
  }

  lemma {:induction false} FdsMember(conns: seq<Conn>, f: int)
    ensures f in Fds(conns) <==> f != -1 && exists i :: 0 <= i < |conns| && conns[i].fd == f
  {
    if conns != [] {
      var n := |conns| - 1;
      FdsMember(conns[..n], f);
      if f in Fds(conns[..n]) {
        var i :| 0 <= i < n && conns[..n][i].fd == f;
        assert conns[i].fd == f;
      } else if i :| 0 <= i < n && conns[i].fd == f {
        assert conns[..n][i].fd == f;
      }
    }
  }

  /** So there are as many descriptors as slots exactly if no slot is free. */
  lemma {:induction false} FdsCount(conns: seq<Conn>)
    requires OneSlotEach(conns)
    ensures |Fds(conns)| <= |conns|
    ensures |Fds(conns)| == |conns| <==> forall i :: 0 <= i < |conns| ==> conns[i].fd != -1
  {
    if conns != [] {
      var n := |conns| - 1;
      var rest, last := conns[..n], conns[n].fd;
      FdsCount(rest);
      FdsMember(rest, last);
      assert forall i :: 0 <= i < n ==> conns[i] == rest[i];
      if last != -1 {
        assert last !in Fds(rest);
      }
    }
  }

  class Server {
    const listenFd: int
    var masterSet: set<int>
    var maxFd: int
    const connections: array<Conn>
    ghost var clients: Clients

    /** The slots hold the open clients, one slot each, with an empty receive buffer. */
    ghost predicate SlotsOk()
      reads this, connections
    {
      && connections.Length == SELECT_MAX_CONNS
      && (forall i :: 0 <= i < SELECT_MAX_CONNS && connections[i].fd != -1 ==>
            var c := connections[i];
            c.fd in clients && clients[c.fd] == Client(c.requestCount, c.lastActivity) && c.recvLen == 0)
      && OneSlotEach(connections[..])
      && (forall f :: f in clients ==> f >= 0 && exists i :: 0 <= i < SELECT_MAX_CONNS && connections[i].fd == f)
    }

    /** The watched set is the listening descriptor and the clients, and its maximum is known. */
    ghost predicate SetOk()
      reads this
    {
      && listenFd >= 0 && listenFd !in clients && masterSet == clients.Keys + {listenFd}
      && maxFd in masterSet && forall f :: f in masterSet ==> f <= maxFd
    }

    ghost predicate Valid()
      reads this, connections
    {
      SlotsOk() && SetOk()
    }

    constructor (fd: int)
      requires fd >= 0
      ensures Valid() && clients == map[] && listenFd == fd && fresh(connections)
    {
      connections := new Conn[SELECT_MAX_CONNS](_ => Conn(-1, 0, 0, 0));
      listenFd := fd;
      masterSet := {fd};
      maxFd := fd;
      clients := map[];
    }

    /** Lowers the maximum after its descriptor left the set. */
    method LowerMax()
      requires listenFd >= 0 && listenFd in masterSet && maxFd >= listenFd
      requires forall f :: f in masterSet ==> f <= maxFd
      modifies `maxFd
      ensures maxFd in masterSet && forall f :: f in masterSet ==> f <= maxFd
    {
      while maxFd > listenFd && maxFd !in masterSet
        invariant maxFd >= listenFd && forall f :: f in masterSet ==> f <= maxFd
        decreases maxFd - listenFd
      {
        maxFd := maxFd - 1;
      }
    }

    method CloseSlot(slot: nat)
      requires Valid() && slot < SELECT_MAX_CONNS && connections[slot].fd != -1
      modifies this, connections
      ensures Valid() && clients == old(clients) - {old(connections[slot].fd)}
      ensures connections[slot].fd == -1
      ensures forall i :: 0 <= i < SELECT_MAX_CONNS && i != slot ==> connections[i] == old(connections[i])
    {
      var fd := connections[slot].fd;
      masterSet := masterSet - {fd};
      connections[slot] := connections[slot].(fd := -1);
      clients := clients - {fd};
      assert SlotsOk() by {
        forall f | f in clients
          ensures exists i :: 0 <= i < SELECT_MAX_CONNS && connections[i].fd == f
        {
          var i :| 0 <= i < SELECT_MAX_CONNS && old(connections[i].fd) == f;
          assert connections[i].fd == f;
        }
      }
      if fd == maxFd {
        LowerMax();
      }
    }

    /** The idle clients are closed, and nobody else. */
    method SweepIdle(now: int)
      requires Valid()
      modifies this, connections
      ensures Valid() && clients == WithoutIdle(old(clients), now)
    {
      ghost var before := clients;
      var i := 0;
      while i < SELECT_MAX_CONNS
        invariant i <= SELECT_MAX_CONNS && Valid()
        invariant forall f :: f in clients ==> f in before && clients[f] == before[f]
        invariant forall f :: f in before && now - before[f].lastActivity < KEEP_ALIVE_TIMEOUT_SEC ==> f in clients
        invariant forall k :: 0 <= k < i && connections[k].fd != -1 ==>
                    now - connections[k].lastActivity < KEEP_ALIVE_TIMEOUT_SEC
      {
        if connections[i].fd != -1 && now - connections[i].lastActivity >= KEEP_ALIVE_TIMEOUT_SEC {
          CloseSlot(i);
        }
        i := i + 1;
      }
      forall f | f in clients
        ensures now - before[f].lastActivity < KEEP_ALIVE_TIMEOUT_SEC
      {
        var k :| 0 <= k < SELECT_MAX_CONNS && connections[k].fd == f;
      }
      forall f
        ensures f in clients <==> f in WithoutIdle(before, now)
      {
      }
      assert clients.Keys == WithoutIdle(before, now).Keys;
      forall f | f in clients
        ensures clients[f] == WithoutIdle(before, now)[f]
      {
      }
    }

    method FindSlot(fd: int) returns (slot: int)
      requires Valid()
      ensures -1 <= slot < SELECT_MAX_CONNS
      ensures slot >= 0 ==> connections[slot].fd == fd
      ensures slot == -1 ==> forall i :: 0 <= i < SELECT_MAX_CONNS ==> connections[i].fd != fd
    {
      var i := 0;
      while i < SELECT_MAX_CONNS
        invariant i <= SELECT_MAX_CONNS && forall k :: 0 <= k < i ==> connections[k].fd != fd
      {
        if connections[i].fd == fd {
          return i;
        }
        i := i + 1;
      }
      slot := -1;
    }

    /** A slot is free exactly while there are fewer clients than slots. */
    lemma RoomIff()
      requires Valid()
      ensures |clients| <= SELECT_MAX_CONNS
      ensures |clients| == SELECT_MAX_CONNS <==> forall i :: 0 <= i < SELECT_MAX_CONNS ==> connections[i].fd != -1
    {
      var conns := connections[..];
      FdsCount(conns);
      forall f
        ensures f in Fds(conns) <==> f in clients
      {
        FdsMember(conns, f);
        if f in clients {
          var i :| 0 <= i < SELECT_MAX_CONNS && connections[i].fd == f;
          assert conns[i].fd == f;
        }
      }
      assert Fds(conns) == clients.Keys;
    }

    /** A new descriptor is taken in, unless accept failed or every slot is used. */
    method Accept(connFd: int, now: int) returns (taken: bool)
      requires Valid() && connFd !in masterSet
      modifies this, connections
      ensures Valid()
      ensures taken <==> connFd >= 0 && |old(clients)| < SELECT_MAX_CONNS
      ensures clients == Accepted(old(clients), connFd, now)
    {
      RoomIff();
      if connFd < 0 {
        return false;
      }
      var slot := FindSlot(-1);
      if slot == -1 {
        return false;
      }
      taken := true;
      FillSlot(slot, connFd, now);
    }

    method FillSlot(slot: nat, connFd: int, now: int)
      requires Valid() && slot < SELECT_MAX_CONNS && connections[slot].fd == -1
      requires connFd >= 0 && connFd !in masterSet
      modifies this, connections
      ensures Valid() && clients == old(clients)[connFd := Client(0, now)]
    {
      connections[slot] := Conn(connFd, 0, 0, now);
      masterSet := masterSet + {connFd};
      clients := clients[connFd := Client(0, now)];
      if connFd > maxFd {
        maxFd := connFd;
      }
      assert connections[slot].fd == connFd;
      forall f | f in clients
        ensures exists i :: 0 <= i < SELECT_MAX_CONNS && connections[i].fd == f
      {
        if f != connFd {
          var i :| 0 <= i < SELECT_MAX_CONNS && old(connections[i].fd) == f;
          assert connections[i].fd == f;
        }
      }
    }

    /** A ready client: its slot exists, so the branch for a missing one is dead. */
    method Serve(fd: int, t: Traffic, now: int)
      requires Valid() && fd in clients
      requires t.received < RECV_BUF_SIZE
      modifies this, connections
      ensures Valid() && clients == Served(old(clients), fd, t, now)
    {
      var slot := FindSlot(fd);
      if slot == -1 {
        assert false;
      }
      if t.received <= 0 {
        CloseSlot(slot);
        return;
      }
      if t.malformed || !t.sendOk {
        CloseSlot(slot);
        return;
      }
      var c := connections[slot];
      if c.requestCount + 1 >= MAX_KEEP_ALIVE_REQUESTS {
        CloseSlot(slot);
      } else {
        KeepOpen(slot, now);
      }
    }

    method KeepOpen(slot: nat, now: int)
      requires Valid() && slot < SELECT_MAX_CONNS && connections[slot].fd != -1
      modifies this, connections
      ensures Valid()
      ensures
        var c := old(connections[slot]);
        clients == old(clients)[c.fd := Client(c.requestCount + 1, now)]
    {
      var c := connections[slot];
      connections[slot] := c.(recvLen := 0, requestCount := c.requestCount + 1, lastActivity := now);
      clients := clients[c.fd := Client(c.requestCount + 1, now)];
      assert connections[slot].fd == c.fd;
      forall f | f in clients
        ensures exists i :: 0 <= i < SELECT_MAX_CONNS && connections[i].fd == f
      {
        var i :| 0 <= i < SELECT_MAX_CONNS && old(connections[i].fd) == f;
        assert connections[i].fd == f;
      }
    }

    /** One descriptor of a round: the listening one, a client, or one that is not ready. */
    method Look(fd: nat, e: Env, ghost before: Clients)
      requires Valid() && Lawful(e, before) && e.listenFd == listenFd && clients == Looked(e, before, fd)
      modifies this, connections
      ensures Valid() && clients == Looked(e, before, fd + 1)
      ensures maxFd <= old(maxFd) || fd == listenFd
    {
      if fd in e.ready {
        LookedProgress(e, before, fd);
        if fd == listenFd {
          assert masterSet == clients.Keys + {fd};
          var taken := Accept(e.connFd(masterSet), e.now);
        } else {
          Serve(fd, e.traffic(fd), e.now);
        }
      }
    }

    /** One round over the ready descriptors: all of them are looked at, in order. */
    method Round(e: Env)
      requires Valid() && Lawful(e, clients) && e.listenFd == listenFd
      modifies this, connections
      ensures Valid()
      ensures forall n: nat :: (forall f :: f in e.ready ==> f < n) ==> clients == Looked(e, old(clients), n)
    {
      ghost var before := clients;
      var fd := 0;
      while fd <= maxFd
        invariant Valid() && fd >= 0 && clients == Looked(e, before, fd)
        decreases fd <= listenFd, maxFd - fd
      {
        Look(fd, e, before);
        fd := fd + 1;
      }
      LookedProgress(e, before, fd);
      AllLooked(e, before, fd);
    }
  }

  /** Where a round stops does not matter. */
  lemma AllLooked(e: Env, before: Clients, k: nat)
    requires forall f :: f in e.ready ==> f < k
    ensures forall n: nat :: (forall f :: f in e.ready ==> f < n) ==> Looked(e, before, n) == Looked(e, before, k)
  {
    forall n: nat | forall f :: f in e.ready ==> f < n
      ensures Looked(e, before, n) == Looked(e, before, k)
    {
      if n <= k {
        LookedStable(e, before, n, k);
      } else {
        LookedStable(e, before, k, n);
      }
    }
  }
}
