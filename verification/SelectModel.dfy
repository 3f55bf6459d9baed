/** What rounds of the select loop do to the open clients. */
module SelectModel {

  const SELECT_MAX_CONNS: nat := 1024
  const MAX_KEEP_ALIVE_REQUESTS: nat := 10000
  const KEEP_ALIVE_TIMEOUT_SEC: int := 5
  const RECV_BUF_SIZE: nat := 8192

  /** What the server knows about an open client. */
  datatype Client = Client(requestCount: nat, lastActivity: int)

  type Clients = map<int, Client>

  /** What the sockets do when a ready client is served: the result of recv, whether the
      request line is malformed, whether send succeeds. */
  datatype Traffic = Traffic(received: int, malformed: bool, sendOk: bool)

  /** What one round meets: the ready descriptors, the traffic on each, and what accept
      returns when some descriptors are open. */
  datatype Env = Env(listenFd: int, ready: set<int>, traffic: int -> Traffic, connFd: set<int> -> int, now: int)

  /** The client survives one more request. */
  predicate Stays(c: Client, t: Traffic) {
    t.received > 0 && !t.malformed && t.sendOk && c.requestCount + 1 < MAX_KEEP_ALIVE_REQUESTS
  }

  function Served(clients: Clients, fd: int, t: Traffic, now: int): Clients
    requires fd in clients
  {
    if Stays(clients[fd], t) then clients[fd := Client(clients[fd].requestCount + 1, now)] else clients - {fd}
  }

  function Accepted(clients: Clients, fd: int, now: int): Clients {
    if fd < 0 || |clients| >= SELECT_MAX_CONNS then clients else clients[fd := Client(0, now)]
  }

  function WithoutIdle(clients: Clients, now: int): Clients {
    map f | f in clients && now - clients[f].lastActivity < KEEP_ALIVE_TIMEOUT_SEC :: clients[f]
  }

  /** A ready client is kept exactly for a request that arrives whole, is answered, and is not
      the ten thousandth; the others are left alone. */
  lemma ServedMeans(clients: Clients, fd: int, t: Traffic, now: int)
    requires fd in clients
    ensures
      var c, after := clients[fd], Served(clients, fd, t, now);
      && (fd in after <==> t.received > 0 && !t.malformed && t.sendOk && c.requestCount < 9999)
      && (fd in after ==> after[fd].requestCount == c.requestCount + 1 && after[fd].lastActivity == now)
      && after - {fd} == clients - {fd}
  {
  }

  /** A client goes exactly when it has been idle for five seconds. */
  lemma WithoutIdleMeans(clients: Clients, now: int, f: int)
    ensures f in WithoutIdle(clients, now) <==> f in clients && clients[f].lastActivity > now - 5
    ensures f in WithoutIdle(clients, now) ==> WithoutIdle(clients, now)[f] == clients[f]
  {
  }

  /** A new client starts without requests, and enters exactly if there are fewer than 1024. */
  lemma AcceptedMeans(clients: Clients, fd: int, now: int)
    requires fd !in clients
    ensures
      var after := Accepted(clients, fd, now);
      && (fd in after <==> fd >= 0 && |clients| < 1024)
      && (fd in after ==> after[fd].requestCount == 0 && after[fd].lastActivity == now)
      && after - {fd} == clients
  {
  }

  /** One descriptor of a round. */
  function LookAt(e: Env, clients: Clients, fd: int): Clients {
    if fd !in e.ready then clients
    else if fd == e.listenFd then Accepted(clients, e.connFd(clients.Keys + {fd}), e.now)
    else if fd in clients then Served(clients, fd, e.traffic(fd), e.now)
    else clients
  }

  /** The clients after the descriptors below n. */
  function Looked(e: Env, before: Clients, n: nat): Clients {
    if n == 0 then before else LookAt(e, Looked(e, before, n - 1), n - 1)
  }

  /** Only open descriptors are ready, recv keeps to its buffer, and accept returns none that
      is open. */
  ghost predicate Lawful(e: Env, before: Clients) {
    && e.listenFd >= 0 && e.listenFd !in before && e.ready <= before.Keys + {e.listenFd}
    && (forall f :: e.traffic(f).received < RECV_BUF_SIZE)
    && (forall open: set<int> :: e.connFd(open) !in open)
    && forall f :: f in before ==> f >= 0
  }

  /** The descriptor that accept returns in this round. */
  function NewFd(e: Env, before: Clients): int
    requires e.listenFd >= 0
  {
    e.connFd(Looked(e, before, e.listenFd).Keys + {e.listenFd})
  }

  /** The client was there before and has not been closed below n. */
  predicate Kept(e: Env, before: Clients, n: int, f: int) {
    f in before && (f in e.ready && f < n ==> Stays(before[f], e.traffic(f)))
  }

  /** There is room for it when the listener is looked at. */
  predicate HasRoom(e: Env, before: Clients)
    requires e.listenFd >= 0
  {
    NewFd(e, before) >= 0 && |Looked(e, before, e.listenFd)| < SELECT_MAX_CONNS
  }

  /** What holds of the clients when the descriptors below n have been looked at; c is the
      descriptor that accept returns, and taken says whether it is let in. */
  ghost predicate Progress(e: Env, before: Clients, clients: Clients, n: nat, c: int, taken: bool) {
    && (forall f :: f in before && (f !in e.ready || f >= n) ==> f in clients && clients[f] == before[f])
    && (forall f :: f in before && f in e.ready && f < n && Stays(before[f], e.traffic(f)) ==>
          f in clients && clients[f] == Client(before[f].requestCount + 1, e.now))
    && (forall f :: f in clients && !Kept(e, before, n, f) ==>
          e.listenFd in e.ready && e.listenFd < n && taken && f == c && clients[f] == Client(0, e.now))
    && (e.listenFd in e.ready && e.listenFd < n && taken ==> c in clients && clients[c] == Client(0, e.now))
  }

  lemma {:induction false} LookedProgress(e: Env, before: Clients, n: nat)
    requires Lawful(e, before)
    ensures Progress(e, before, Looked(e, before, n), n, NewFd(e, before), HasRoom(e, before))
  {
    if n == 0 {
      NoProgress(e, before, NewFd(e, before), HasRoom(e, before));
    } else {
      LookedProgress(e, before, n - 1);
      NextProgress(e, before, n - 1, Looked(e, before, n - 1));
    }
  }

  lemma NoProgress(e: Env, before: Clients, c: int, taken: bool)
    requires Lawful(e, before)
    ensures Progress(e, before, before, 0, c, taken)
  {
  }

  lemma NextProgress(e: Env, before: Clients, fd: nat, clients: Clients)
    requires Lawful(e, before) && clients == Looked(e, before, fd)
    requires Progress(e, before, clients, fd, NewFd(e, before), HasRoom(e, before))
    ensures Progress(e, before, LookAt(e, clients, fd), fd + 1, NewFd(e, before), HasRoom(e, before))
  {
    NewIsNotReady(e, before, fd);
    LookProgress(e, before, clients, fd, NewFd(e, before), HasRoom(e, before));
  }

  lemma LookProgress(e: Env, before: Clients, clients: Clients, fd: nat, c: int, taken: bool)
    requires Lawful(e, before) && Progress(e, before, clients, fd, c, taken)
    requires fd == e.listenFd ==>
               c == e.connFd(clients.Keys + {fd}) && taken == (c >= 0 && |clients| < SELECT_MAX_CONNS)
    requires fd in e.ready && e.listenFd < fd ==> fd != c
    ensures Progress(e, before, LookAt(e, clients, fd), fd + 1, c, taken)
  {
    if fd !in e.ready {
      SkipProgress(e, before, clients, fd, c, taken);
    } else if fd == e.listenFd {
      ListenProgress(e, before, clients, c, taken);
    } else {
      ServeProgress(e, before, clients, fd, c, taken);
    }
  }

  lemma AcceptedIs(e: Env, clients: Clients, c: int, taken: bool)
    requires e.listenFd in e.ready && c == e.connFd(clients.Keys + {e.listenFd})
    requires taken == (c >= 0 && |clients| < SELECT_MAX_CONNS)
    requires forall open: set<int> :: e.connFd(open) !in open
    ensures LookAt(e, clients, e.listenFd) == if taken then clients[c := Client(0, e.now)] else clients
    ensures c !in clients
  {
    assert c !in clients.Keys + {e.listenFd};
  }

  lemma SkipProgress(e: Env, before: Clients, clients: Clients, fd: nat, c: int, taken: bool)
    requires Progress(e, before, clients, fd, c, taken) && fd !in e.ready
    ensures Progress(e, before, LookAt(e, clients, fd), fd + 1, c, taken)
  {
  }

  lemma ListenProgress(e: Env, before: Clients, clients: Clients, c: int, taken: bool)
    requires e.listenFd >= 0 && e.listenFd !in before && e.listenFd in e.ready
    requires Progress(e, before, clients, e.listenFd, c, taken)
    requires c == e.connFd(clients.Keys + {e.listenFd}) && taken == (c >= 0 && |clients| < SELECT_MAX_CONNS)
    requires forall open: set<int> :: e.connFd(open) !in open
    ensures Progress(e, before, LookAt(e, clients, e.listenFd), e.listenFd + 1, c, taken)
  {
    AcceptedIs(e, clients, c, taken);
    AcceptProgress(e, before, clients, c, taken);
  }

  lemma AcceptProgress(e: Env, before: Clients, clients: Clients, c: int, taken: bool)
    requires e.listenFd >= 0 && e.listenFd !in before && e.listenFd in e.ready && c !in clients
    requires Progress(e, before, clients, e.listenFd, c, taken)
    ensures Progress(e, before, if taken then clients[c := Client(0, e.now)] else clients, e.listenFd + 1, c, taken)
  {
  }

  /** A descriptor accepted in this round is not looked at again in it. */
  lemma NewIsNotReady(e: Env, before: Clients, fd: nat)
    requires Lawful(e, before)
    ensures fd in e.ready && e.listenFd < fd ==> fd != NewFd(e, before)
  {
    if fd in e.ready && e.listenFd < fd {
      StillOpen(e, before, e.listenFd, fd);
    }
  }

  /** A descriptor that has not been looked at is as it was. */
  lemma {:induction false} StillOpen(e: Env, before: Clients, n: nat, f: int)
    requires f in before && f >= n && f != e.listenFd
    requires forall open: set<int> :: e.connFd(open) !in open
    ensures f in Looked(e, before, n) && Looked(e, before, n)[f] == before[f]
  {
    if n > 0 {
      StillOpen(e, before, n - 1, f);
      var clients := Looked(e, before, n - 1);
      assert e.connFd(clients.Keys + {n - 1}) !in clients.Keys + {n - 1};
    }
  }

  lemma ServeProgress(e: Env, before: Clients, clients: Clients, fd: nat, c: int, taken: bool)
    requires Lawful(e, before) && Progress(e, before, clients, fd, c, taken)
    requires fd in e.ready && fd != e.listenFd && (e.listenFd < fd ==> fd != c)
    ensures Progress(e, before, LookAt(e, clients, fd), fd + 1, c, taken)
  {
    assert fd in before && fd in clients;
  }

  /** Beyond the ready descriptors nothing happens any more. */
  lemma {:induction false} LookedStable(e: Env, before: Clients, n: nat, m: nat)
    requires n <= m && forall f :: f in e.ready ==> f < n
    ensures Looked(e, before, m) == Looked(e, before, n)
    decreases m
  {
    if n < m {
      LookedStable(e, before, n, m - 1);
    }
  }

  /** After a round: clients that were not ready are unchanged; ready clients were served once,
      and stay exactly if their traffic allows; the only new client is the accepted one, which is
      there if the listener was ready, accept succeeded and there was room. */
  lemma RoundOutcome(e: Env, before: Clients, n: nat)
    requires Lawful(e, before) && (forall f :: f in e.ready ==> f < n)
    ensures
      var after := Looked(e, before, n);
      && (forall f :: f in before && f !in e.ready ==> f in after && after[f] == before[f])
      && (forall f :: f in before && f in e.ready && Stays(before[f], e.traffic(f)) ==>
            f in after && after[f] == Client(before[f].requestCount + 1, e.now))
      && (forall f :: f in after ==>
            || (f in before && (f in e.ready ==> Stays(before[f], e.traffic(f))))
            || (e.listenFd in e.ready && f == NewFd(e, before) && after[f] == Client(0, e.now)))
      && (e.listenFd in e.ready && HasRoom(e, before) ==>
            NewFd(e, before) in after && after[NewFd(e, before)] == Client(0, e.now))
  {
    LookedProgress(e, before, n);
  }

  // ---- the size of the descriptor set ----------------------------------------------------

  /** An fd_set has a bit for each descriptor below this number. */
  const FD_SETSIZE: nat := 1024

  predicate InSet(clients: Clients) {
    forall f :: f in clients ==> f < FD_SETSIZE
  }

  /** From descriptors that an fd_set can hold, a round leads to such descriptors exactly if it
      lets in no other: nothing else keeps the new descriptor below the limit. */
  lemma InSetIff(e: Env, before: Clients, n: nat)
    requires Lawful(e, before) && InSet(before)
    ensures
      var letIn := e.listenFd in e.ready && e.listenFd < n && HasRoom(e, before);
      InSet(Looked(e, before, n)) <==> (letIn ==> NewFd(e, before) < FD_SETSIZE)
  {
    LookedProgress(e, before, n);
  }
}
