/**
 * The server's dispatch thread with its threads and sockets stripped away:
 * the list of live connections, the sockets registered with the selector,
 * and the thread pool's queue of jobs. One iteration of the loop services the
 * listener, hands every ready, idle, live connection to the pool, and removes
 * every connection that is a zombie and not being handled.
 */
module Server {
  import opened Wrappers
  import opened ByteOrder

  /** A socket's identity; the listener and every accepted socket have distinct ones. */
  type SocketId = nat

  /**
   * The rule `isZombie` applies to a connection's liveness flag and fail count.
   * Its definition is not part of this model, so every rule is allowed.
   */
  type ZombieRule = (bool, uint32) -> bool

  class Connection {
    /** `m_socket`: the socket the connection owns. */
    const socket: SocketId
    const zombieRule: ZombieRule
    /** `m_beingHandled`, `m_connected` and `m_failCount`. */
    var beingHandled: bool
    var connected: bool
    var failCount: uint32

    /** `Connection(socket)`: owns that socket; a new connection is idle and connected. */
    constructor (socket: SocketId, zombieRule: ZombieRule)
      ensures this.socket == socket && this.zombieRule == zombieRule
      ensures !beingHandled && connected && failCount == 0
    {
      this.socket := socket;
      this.zombieRule := zombieRule;
      beingHandled := false;
      connected := true;
      failCount := 0;
    }

    /** `getSocket()`: the socket given to the constructor. */
    function GetSocket(): (s: SocketId)
      ensures s == socket
    {
      socket
    }

    /** `isBeingHandled()` (const). */
    function IsBeingHandled(): (b: bool)
      reads this
      ensures b == beingHandled
    {
      beingHandled
    }

    /** `setBeingHandled()`: marks the connection busy and changes nothing else. */
    method SetBeingHandled()
      modifies this
      ensures beingHandled && IsBeingHandled()
      ensures connected == old(connected) && failCount == old(failCount)
    {
      beingHandled := true;
    }

    /** `isZombie()` (const): the connection should be removed. */
    function IsZombie(): (z: bool)
      reads this
      ensures z == zombieRule(connected, failCount)
    {
      zombieRule(connected, failCount)
    }
  }

  /** The constructor's arguments. */
  datatype ServerConfig = ServerConfig(port: uint16, maxThreadCount: uint16)

  /** A configuration the constructor accepts: the dispatch thread and at least one worker. */
  type ValidConfig = c: ServerConfig | c.maxThreadCount >= 2 witness ServerConfig(0, 2)

  /** `std::invalid_argument`. */
  datatype ConfigError = InvalidArgument

  /** `Server::Impl(port, maxThreadCount)`: throws when fewer than two threads are allowed. */
  function NewServer(port: uint16, maxThreadCount: uint16): (r: Outcome<ValidConfig, ConfigError>)
    ensures r.Ok? <==> maxThreadCount >= 2
    ensures r.Ok? ==> r.value == ServerConfig(port, maxThreadCount)
    ensures r.Fail? ==> r.error == InvalidArgument
  {
    if maxThreadCount < 2 then Fail(InvalidArgument) else Ok(ServerConfig(port, maxThreadCount))
  }

  /** The pool size `static_cast<uint16_t>(m_maxThreadCount - 1)`: the dispatch thread counts toward the total. */
  function WorkerCount(config: ValidConfig): (n: uint16)
    ensures 1 <= n && n as int == config.maxThreadCount as int - 1
  {
    config.maxThreadCount - 1
  }

  /** `sf::Socket::Status`, with the accepted socket on `Done`. */
  datatype AcceptStatus = Done(accepted: SocketId) | NotReady | Partial | Disconnected | Error

  /** The sockets of some connections. */
  function SocketsOf(cs: seq<Connection>): set<SocketId> {
    set i | 0 <= i < |cs| :: cs[i].socket
  }

  /** No two connections share a socket (so no connection is listed twice). */
  predicate DistinctSockets(cs: seq<Connection>) {
    forall i, j | 0 <= i < j < |cs| :: cs[i].socket != cs[j].socket
  }

  /** The cleanup condition: `!isBeingHandled() && isZombie()`. */
  predicate Reapable(c: Connection)
    reads c
  {
    !c.IsBeingHandled() && c.IsZombie()
  }

  /** The dispatch condition: `!isBeingHandled() && !isZombie() && isReady(socket)`. */
  predicate Dispatchable(c: Connection, ready: set<SocketId>)
    reads c
  {
    !c.IsBeingHandled() && !c.IsZombie() && c.GetSocket() in ready
  }

  /** The connections cleanup keeps, in their order. */
  function Survivors(cs: seq<Connection>): (r: seq<Connection>)
    reads set i | 0 <= i < |cs| :: cs[i]
  {
    if cs == [] then []
    else Survivors(cs[..|cs| - 1]) + (if Reapable(cs[|cs| - 1]) then [] else [cs[|cs| - 1]])
  }

  /** The connections cleanup removes, in their order. */
  function Reaped(cs: seq<Connection>): (r: seq<Connection>)
    reads set i | 0 <= i < |cs| :: cs[i]
  {
    if cs == [] then []
    else Reaped(cs[..|cs| - 1]) + (if Reapable(cs[|cs| - 1]) then [cs[|cs| - 1]] else [])
  }

  /** The connections one dispatch pass hands to the pool, in list order. */
  function Selected(cs: seq<Connection>, ready: set<SocketId>): (r: seq<Connection>)
    reads set i | 0 <= i < |cs| :: cs[i]
  {
    if cs == [] then []
    else Selected(cs[..|cs| - 1], ready) + (if Dispatchable(cs[|cs| - 1], ready) then [cs[|cs| - 1]] else [])
  }

  /** A connection survives cleanup exactly when it was listed and is busy or not a zombie. */
  lemma {:induction false} SurvivorsExactly(cs: seq<Connection>, c: Connection)
    ensures c in Survivors(cs) <==> c in cs && !Reapable(c)
  {
    if cs != [] {
      SurvivorsExactly(cs[..|cs| - 1], c);
      assert cs == cs[..|cs| - 1] + [cs[|cs| - 1]];
    }
  }

  /** A connection is removed exactly when it was listed, idle and a zombie. */
  lemma {:induction false} ReapedExactly(cs: seq<Connection>, c: Connection)
    ensures c in Reaped(cs) <==> c in cs && Reapable(c)
  {
    if cs != [] {
      ReapedExactly(cs[..|cs| - 1], c);
      assert cs == cs[..|cs| - 1] + [cs[|cs| - 1]];
    }
  }

  /** Cleanup keeps the survivors in their original order: it distributes over splitting the list. */
  lemma {:induction false} SurvivorsSplit(a: seq<Connection>, b: seq<Connection>)
    ensures Survivors(a + b) == Survivors(a) + Survivors(b)
  {
    if b != [] {
      var b' := b[..|b| - 1];
      assert (a + b)[..|a + b| - 1] == a + b';
      SurvivorsSplit(a, b');
    } else {
      assert a + b == a;
    }
  }

  /** A connection is handed to the pool exactly when it was listed, ready, idle and live. */
  lemma {:induction false} SelectedExactly(cs: seq<Connection>, ready: set<SocketId>, c: Connection)
    ensures c in Selected(cs, ready) <==> c in cs && Dispatchable(c, ready)
  {
    if cs != [] {
      SelectedExactly(cs[..|cs| - 1], ready, c);
      assert cs == cs[..|cs| - 1] + [cs[|cs| - 1]];
    }
  }

  /** The survivors and the removed connections split the sockets between them. */
  lemma {:induction false} SocketsPartition(cs: seq<Connection>)
    requires DistinctSockets(cs)
    ensures SocketsOf(Survivors(cs)) + SocketsOf(Reaped(cs)) == SocketsOf(cs)
    ensures SocketsOf(Survivors(cs)) !! SocketsOf(Reaped(cs))
  {
    if cs != [] {
      var init, last := cs[..|cs| - 1], cs[|cs| - 1];
      SocketsPartition(init);
      SocketsAppend(Survivors(init), if Reapable(last) then [] else [last]);
      SocketsAppend(Reaped(init), if Reapable(last) then [last] else []);
      SocketsAppend(init, [last]);
      assert cs == init + [last];
      SubsequenceSockets(init, last);
    }
  }

  /** The sockets of a concatenation. */
  lemma SocketsAppend(a: seq<Connection>, b: seq<Connection>)
    ensures SocketsOf(a + b) == SocketsOf(a) + SocketsOf(b)
  {
    var ab := a + b;
    forall s | s in SocketsOf(ab) ensures s in SocketsOf(a) + SocketsOf(b) {
      var i :| 0 <= i < |ab| && ab[i].socket == s;
      if i < |a| {
        assert a[i] == ab[i];
      } else {
        assert b[i - |a|] == ab[i];
      }
    }
    forall s | s in SocketsOf(a) ensures s in SocketsOf(ab) {
      var i :| 0 <= i < |a| && a[i].socket == s;
      assert ab[i] == a[i];
    }
    forall s | s in SocketsOf(b) ensures s in SocketsOf(ab) {
      var i :| 0 <= i < |b| && b[i].socket == s;
      assert ab[|a| + i] == b[i];
    }
  }

  /** With distinct sockets, the last connection's socket is none of the earlier ones'. */
  lemma SubsequenceSockets(init: seq<Connection>, last: Connection)
    requires DistinctSockets(init + [last])
    ensures last.socket !in SocketsOf(init)
    ensures last.socket !in SocketsOf(Survivors(init)) && last.socket !in SocketsOf(Reaped(init))
  {
    var cs := init + [last];
    forall i | 0 <= i < |init| ensures init[i].socket != last.socket {
      assert cs[i] == init[i] && cs[|init|] == last;
    }
    forall s | s in SocketsOf(Survivors(init)) ensures s in SocketsOf(init) {
      var k :| 0 <= k < |Survivors(init)| && Survivors(init)[k].socket == s;
      SurvivorsExactly(init, Survivors(init)[k]);
      var i :| 0 <= i < |init| && init[i] == Survivors(init)[k];
    }
    forall s | s in SocketsOf(Reaped(init)) ensures s in SocketsOf(init) {
      var k :| 0 <= k < |Reaped(init)| && Reaped(init)[k].socket == s;
      ReapedExactly(init, Reaped(init)[k]);
      var i :| 0 <= i < |init| && init[i] == Reaped(init)[k];
    }
  }

  /** Set membership of a survivor implies membership of the original list. */
  lemma SurvivorsAreListed(cs: seq<Connection>)
    ensures forall c | c in Survivors(cs) :: c in cs
    ensures DistinctSockets(cs) ==> DistinctSockets(Survivors(cs))
  {
    forall c | c in Survivors(cs) ensures c in cs {
      SurvivorsExactly(cs, c);
    }
    if DistinctSockets(cs) {
      SurvivorsKeepDistinct(cs);
    }
  }

  lemma {:induction false} SurvivorsKeepDistinct(cs: seq<Connection>)
    requires DistinctSockets(cs)
    ensures DistinctSockets(Survivors(cs))
  {
    if cs != [] {
      var init, last := cs[..|cs| - 1], cs[|cs| - 1];
      assert cs == init + [last];
      SurvivorsKeepDistinct(init);
      SubsequenceSockets(init, last);
      var r := Survivors(cs);
      if !Reapable(last) {
        forall i | 0 <= i < |r| - 1 ensures r[i].socket != last.socket {
          assert r[i] in Survivors(init);
          assert r[i].socket in SocketsOf(Survivors(init));
        }
      }
    }
  }

  /** What one step of the cleanup loop adds to the kept and the removed connections. */
  lemma CleanupStep(cs: seq<Connection>, j: nat)
    requires j < |cs|
    ensures Survivors(cs[..j + 1]) == Survivors(cs[..j]) + (if Reapable(cs[j]) then [] else [cs[j]])
    ensures SocketsOf(Reaped(cs[..j + 1])) == SocketsOf(Reaped(cs[..j])) + (if Reapable(cs[j]) then {cs[j].socket} else {})
  {
    assert cs[..j + 1][..j] == cs[..j];
    SocketsAppend(Reaped(cs[..j]), if Reapable(cs[j]) then [cs[j]] else []);
    assert SocketsOf([cs[j]]) == {cs[j].socket} by {
      assert [cs[j]][0].socket == cs[j].socket;
    }
    assert SocketsOf([]) == {};
  }

  /**
   * One step of erasing in place: `live` holds the survivors of the first `j`
   * connections followed by the unvisited ones, and `i` points at connection
   * `j`; erasing it or stepping past it keeps that shape for `j + 1`.
   */
  lemma EraseStep(cs: seq<Connection>, j: nat, live: seq<Connection>, i: nat)
    requires j < |cs| && live == Survivors(cs[..j]) + cs[j..] && i == |Survivors(cs[..j])|
    ensures i < |live| && live[i] == cs[j]
    ensures SocketsOf(Reaped(cs[..j + 1])) == SocketsOf(Reaped(cs[..j])) + (if Reapable(cs[j]) then {cs[j].socket} else {})
    ensures Reapable(cs[j]) ==>
      live[..i] + live[i + 1..] == Survivors(cs[..j + 1]) + cs[j + 1..] && i == |Survivors(cs[..j + 1])|
    ensures !Reapable(cs[j]) ==>
      live == Survivors(cs[..j + 1]) + cs[j + 1..] && i + 1 == |Survivors(cs[..j + 1])|
  {
    CleanupStep(cs, j);
    assert live[..i] == Survivors(cs[..j]);
    assert live[i..] == cs[j..];
    assert live[i + 1..] == cs[j + 1..];
    assert cs[j..] == [cs[j]] + cs[j + 1..];
  }

  /**
   * The loop of `cleanupConnections`: walks the list once, erasing in place each
   * connection that is idle and a zombie and taking its socket out of the
   * selector's set, and stepping past every other one.
   */
  method EraseReapable(cs: seq<Connection>, registered: set<SocketId>) returns (live: seq<Connection>, left: set<SocketId>)
    ensures live == Survivors(cs)
    ensures left == registered - SocketsOf(Reaped(cs))
  {
    live, left := cs, registered;
    ghost var j := 0;
    var i := 0;
    while i < |live|
      invariant 0 <= j <= |cs|
      invariant live == Survivors(cs[..j]) + cs[j..]
      invariant i == |Survivors(cs[..j])|
      invariant left == registered - SocketsOf(Reaped(cs[..j]))
      decreases |live| - i
    {
      EraseStep(cs, j, live, i);
      var c := live[i];
      if !c.IsBeingHandled() && c.IsZombie() {
        left := left - {c.GetSocket()};
        live := live[..i] + live[i + 1..];
      } else {
        i := i + 1;
      }
      j := j + 1;
    }
    assert j == |cs| && cs[..j] == cs && cs[j..] == [];
  }

  /** Dispatch over a list with one more connection at the end: that connection is selected last, if at all. */
  lemma SelectedAppend(cs: seq<Connection>, c: Connection, ready: set<SocketId>)
    ensures Selected(cs + [c], ready) == Selected(cs, ready) + (if Dispatchable(c, ready) then [c] else [])
  {
    assert (cs + [c])[..|cs|] == cs;
  }

  /** A connection that is idle, connected and has no failures is dispatched exactly when its rule does not call that a zombie and its socket is ready. */
  lemma FreshlyAccepted(c: Connection, ready: set<SocketId>)
    requires !c.beingHandled && c.connected && c.failCount == 0
    ensures Dispatchable(c, ready) == (!c.zombieRule(true, 0) && c.socket in ready)
  {
  }

  /** The inputs of one iteration of the loop in `run`. */
  datatype Iteration = Iteration(waitReady: bool, ready: set<SocketId>, status: AcceptStatus)

  /** Every socket the listener accepts over these iterations is new: not registered, and accepted once. */
  predicate FreshAccepts(steps: seq<Iteration>, registered: set<SocketId>) {
    && (forall k | 0 <= k < |steps| && steps[k].status.Done? :: steps[k].status.accepted !in registered)
    && (forall k, l | 0 <= k < l < |steps| && steps[k].status.Done? && steps[l].status.Done? ::
          steps[k].status.accepted != steps[l].status.accepted)
  }

  /** The state `run` keeps on the dispatch thread. */
  class Dispatcher {
    const config: ValidConfig
    const listener: SocketId
    /** The pool's thread count, `maxThreadCount - 1`. */
    const workerCount: uint16
    const zombieRule: ZombieRule
    /** `std::list<Connection> connections`. */
    var connections: seq<Connection>
    /** The sockets registered with `socketSelector`. */
    var selector: set<SocketId>
    /** The connections whose `handle()` jobs were queued on the pool, oldest first. */
    var jobs: seq<Connection>
    /** For each queued job, whether its connection was already marked busy at the moment it was queued. */
    ghost var busyWhenQueued: seq<bool>

    ghost function Repr(): set<Connection>
      reads this
    {
      set c | c in connections
    }

    /**
     * The selector watches the listener and exactly the live connections'
     * sockets; every queued job's connection is live and marked busy, and was
     * marked busy before it was queued; no connection is queued twice.
     */
    ghost predicate Valid()
      reads this, Repr()
    {
      && DistinctSockets(connections)
      && listener !in SocketsOf(connections)
      && selector == {listener} + SocketsOf(connections)
      && (forall k | 0 <= k < |jobs| :: jobs[k] in connections && jobs[k].beingHandled)
      && (forall k, l | 0 <= k < l < |jobs| :: jobs[k] != jobs[l])
      && |busyWhenQueued| == |jobs|
      && (forall k | 0 <= k < |busyWhenQueued| :: busyWhenQueued[k])
    }

    /** The start of `run`: no connections, the listener registered, a pool of `maxThreadCount - 1` threads. */
    constructor (config: ValidConfig, listener: SocketId, zombieRule: ZombieRule)
      ensures Valid()
      ensures this.config == config && this.listener == listener && this.zombieRule == zombieRule
      ensures workerCount == WorkerCount(config)
      ensures connections == [] && selector == {listener} && jobs == []
    {
      this.config := config;
      this.listener := listener;
      this.zombieRule := zombieRule;
      workerCount := WorkerCount(config);
      connections := [];
      selector := {listener};
      jobs := [];
      busyWhenQueued := [];
    }

    /** `listen`: on `Done`, registers the socket and appends a connection for it; otherwise changes nothing. */
    method Listen(status: AcceptStatus)
      requires Valid()
      requires status.Done? ==> status.accepted !in selector
      modifies this
      ensures Valid()
      ensures jobs == old(jobs)
      ensures status.Done? ==>
        && |connections| == |old(connections)| + 1
        && connections[..|old(connections)|] == old(connections)
        && fresh(connections[|old(connections)|])
        && NewlyAccepted(connections[|old(connections)|], status.accepted, false)
        && selector == old(selector) + {status.accepted}
      ensures !status.Done? ==> connections == old(connections) && selector == old(selector)
    {
      match status
      case Done(socket) =>
        selector := selector + {socket};
        var c := new Connection(socket, zombieRule);
        SocketsAppend(connections, [c]);
        assert SocketsOf([c]) == {socket} by {
          assert [c][0].socket == socket;
        }
        forall i | 0 <= i < |connections| ensures connections[i].socket != socket {
          assert connections[i].socket in SocketsOf(connections);
        }
        connections := connections + [c];
      case NotReady =>
      case Partial =>
      case Disconnected =>
      case Error =>
    }

    /**
     * The loop over the connections in `run`: each ready connection that is
     * neither being handled nor a zombie is marked busy and then queued.
     */
    method Dispatch(ready: set<SocketId>)
      requires Valid()
      modifies this, Repr()
      ensures Valid()
      ensures connections == old(connections) && selector == old(selector)
      ensures jobs == old(jobs) + old(Selected(connections, ready))
      ensures forall k | 0 <= k < |connections| ::
        connections[k].beingHandled == (old(connections[k].beingHandled) || old(Dispatchable(connections[k], ready)))
      ensures forall k | 0 <= k < |connections| ::
        connections[k].connected == old(connections[k].connected) && connections[k].failCount == old(connections[k].failCount)
    {
      var i := 0;
      while i < |connections|
        invariant 0 <= i <= |connections|
        invariant connections == old(connections) && selector == old(selector)
        invariant Valid()
        invariant jobs == old(jobs) + old(Selected(connections[..i], ready))
        invariant forall k | 0 <= k < |connections| ::
          connections[k].connected == old(connections[k].connected) && connections[k].failCount == old(connections[k].failCount)
        invariant forall k | 0 <= k < i ::
          connections[k].beingHandled == (old(connections[k].beingHandled) || old(Dispatchable(connections[k], ready)))
        invariant forall k | i <= k < |connections| :: connections[k].beingHandled == old(connections[k].beingHandled)
      {
        var c := connections[i];
        assert connections[..i + 1][..i] == connections[..i];
        assert old(Dispatchable(c, ready)) == Dispatchable(c, ready);
        if !c.IsBeingHandled() && !c.IsZombie() && c.GetSocket() in ready {
          c.SetBeingHandled();
          jobs, busyWhenQueued := jobs + [c], busyWhenQueued + [c.beingHandled];
        }
        i := i + 1;
      }
      assert connections[..|connections|] == connections;
    }

    /** `cleanupConnections`: erases, in place, every connection that is idle and a zombie, unregistering its socket. */
    method Cleanup()
      requires Valid()
      modifies this
      ensures Valid()
      ensures connections == old(Survivors(connections))
      ensures selector == old(selector - SocketsOf(Reaped(connections)))
      ensures jobs == old(jobs)
    {
      var live, registered := EraseReapable(connections, selector);
      CleanupKeepsValid(connections, selector, jobs);
      assert forall k | 0 <= k < |jobs| :: jobs[k] in live && jobs[k].beingHandled;
      connections, selector := live, registered;
    }

    lemma CleanupKeepsValid(cs: seq<Connection>, registered: set<SocketId>, queued: seq<Connection>)
      requires DistinctSockets(cs) && listener !in SocketsOf(cs) && registered == {listener} + SocketsOf(cs)
      requires forall k | 0 <= k < |queued| :: queued[k] in cs && queued[k].beingHandled
      ensures DistinctSockets(Survivors(cs)) && listener !in SocketsOf(Survivors(cs))
      ensures registered - SocketsOf(Reaped(cs)) == {listener} + SocketsOf(Survivors(cs))
      ensures forall k | 0 <= k < |queued| :: queued[k] in Survivors(cs)
    {
      SocketsPartition(cs);
      SurvivorsAreListed(cs);
      forall k | 0 <= k < |queued| ensures queued[k] in Survivors(cs) {
        SurvivorsExactly(cs, queued[k]);
      }
    }

    /** The connection `listen` creates for `socket`: it carries the server's zombie rule, is connected, has no failures, and its busy flag is `busy`. */
    ghost predicate NewlyAccepted(c: Connection, socket: SocketId, busy: bool)
      reads c
    {
      c.socket == socket && c.zombieRule == zombieRule && c.connected && c.failCount == 0 && c.beingHandled == busy
    }

    /** A connection accepted in this iteration is dispatched in it: its rule does not call a fresh connection a zombie and its socket is ready. */
    predicate DispatchedOnArrival(socket: SocketId, ready: set<SocketId>) {
      !zombieRule(true, 0) && socket in ready
    }

    /** This iteration reaches `listen` and the listener accepts a socket. */
    predicate Accepts(step: Iteration) {
      step.waitReady && listener in step.ready && step.status.Done?
    }

    /**
     * The body of `if(socketSelector.wait(...))` in `run`: the listener is
     * serviced first, so a connection accepted now takes part in this
     * iteration's dispatch; then every selected connection is marked busy and
     * queued. Nothing happens when the wait reports no readiness.
     */
    method Service(step: Iteration)
      requires Valid()
      requires step.status.Done? ==> step.status.accepted !in selector
      modifies this, Repr()
      ensures Valid()
      ensures !Accepts(step) ==> connections == old(connections)
      ensures Accepts(step) ==>
        && |connections| == |old(connections)| + 1
        && connections[..|old(connections)|] == old(connections)
        && fresh(connections[|old(connections)|])
        && NewlyAccepted(connections[|old(connections)|], step.status.accepted, DispatchedOnArrival(step.status.accepted, step.ready))
      ensures forall k | 0 <= k < |old(connections)| ::
        connections[k].beingHandled ==
          (old(connections[k].beingHandled) || (step.waitReady && old(Dispatchable(connections[k], step.ready))))
      ensures forall k | 0 <= k < |old(connections)| ::
        connections[k].connected == old(connections[k].connected) && connections[k].failCount == old(connections[k].failCount)
      ensures jobs == old(jobs)
        + (if step.waitReady then old(Selected(connections, step.ready)) else [])
        + (if Accepts(step) && DispatchedOnArrival(step.status.accepted, step.ready) then [connections[|old(connections)|]] else [])
      ensures selector == old(selector) + (if Accepts(step) then {step.status.accepted} else {})
      ensures forall c | c in Repr() :: c in old(Repr()) || fresh(c)
    {
      if step.waitReady {
        if listener in step.ready {
          ListenAndDispatch(step.status, step.ready);
        } else {
          Dispatch(step.ready);
        }
      }
    }

    /**
     * The listener was ready: `listen`, then the dispatch loop over the list,
     * which by then includes the connection just accepted, if any.
     */
    method ListenAndDispatch(status: AcceptStatus, ready: set<SocketId>)
      requires Valid()
      requires status.Done? ==> status.accepted !in selector
      modifies this, Repr()
      ensures Valid()
      ensures !status.Done? ==> connections == old(connections)
      ensures status.Done? ==>
        && |connections| == |old(connections)| + 1
        && connections[..|old(connections)|] == old(connections)
        && fresh(connections[|old(connections)|])
        && NewlyAccepted(connections[|old(connections)|], status.accepted, DispatchedOnArrival(status.accepted, ready))
      ensures forall k | 0 <= k < |old(connections)| ::
        connections[k].beingHandled == (old(connections[k].beingHandled) || old(Dispatchable(connections[k], ready)))
      ensures forall k | 0 <= k < |old(connections)| ::
        connections[k].connected == old(connections[k].connected) && connections[k].failCount == old(connections[k].failCount)
      ensures jobs == old(jobs) + old(Selected(connections, ready))
        + (if status.Done? && DispatchedOnArrival(status.accepted, ready) then [connections[|old(connections)|]] else [])
      ensures selector == old(selector) + (if status.Done? then {status.accepted} else {})
      ensures forall c | c in Repr() :: c in old(Repr()) || fresh(c)
    {
      ghost var before := connections;
      Listen(status);
      assert Selected(before, ready) == old(Selected(connections, ready));
      if status.Done? {
        var c := connections[|before|];
        SelectedAppend(before, c, ready);
        assert connections == before + [c];
        FreshlyAccepted(c, ready);
        Dispatch(ready);
      } else {
        Dispatch(ready);
      }
    }

    /**
     * One iteration of the loop in `run`: the ready sockets are serviced, and
     * then cleanup runs on every iteration, ready or not. `listed` is the
     * connection list after servicing, which cleanup walks.
     */
    method Iterate(step: Iteration) returns (ghost listed: seq<Connection>)
      requires Valid()
      requires step.status.Done? ==> step.status.accepted !in selector
      modifies this, Repr()
      ensures Valid()
      ensures !Accepts(step) ==> listed == old(connections)
      ensures Accepts(step) ==>
        && |listed| == |old(connections)| + 1
        && listed[..|old(connections)|] == old(connections)
        && fresh(listed[|old(connections)|])
        && NewlyAccepted(listed[|old(connections)|], step.status.accepted, DispatchedOnArrival(step.status.accepted, step.ready))
      ensures forall k | 0 <= k < |old(connections)| ::
        listed[k].beingHandled ==
          (old(connections[k].beingHandled) || (step.waitReady && old(Dispatchable(connections[k], step.ready))))
      ensures forall k | 0 <= k < |old(connections)| ::
        listed[k].connected == old(connections[k].connected) && listed[k].failCount == old(connections[k].failCount)
      ensures jobs == old(jobs)
        + (if step.waitReady then old(Selected(connections, step.ready)) else [])
        + (if Accepts(step) && DispatchedOnArrival(step.status.accepted, step.ready) then [listed[|old(connections)|]] else [])
      ensures connections == Survivors(listed)
      ensures selector == (old(selector) + (if Accepts(step) then {step.status.accepted} else {})) - SocketsOf(Reaped(listed))
      ensures forall c | c in Repr() :: c in old(Repr()) || fresh(c)
    {
      Service(step);
      listed := connections;
      Cleanup();
      SurvivorsAreListed(listed);
    }

    /** `run`'s `while(!m_stopping)` loop over the iterations that happen before the stop flag is seen. */
    method Run(steps: seq<Iteration>)
      requires Valid() && FreshAccepts(steps, selector)
      modifies this, Repr()
      ensures Valid()
      ensures old(jobs) <= jobs
    {
      var i := 0;
      while i < |steps|
        invariant 0 <= i <= |steps|
        invariant Valid()
        invariant old(jobs) <= jobs
        invariant forall c | c in Repr() :: c in old(Repr()) || fresh(c)
        invariant forall k | i <= k < |steps| && steps[k].status.Done? :: steps[k].status.accepted !in selector
      {
        ghost var listed := Iterate(steps[i]);
        i := i + 1;
      }
    }
  }
}
