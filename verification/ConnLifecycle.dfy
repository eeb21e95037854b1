/** What a single-loop server keeps about its connections, as values: the list of open
    ones, the poller's table and the queue of destructions, and the three steps that
    change them. */
module ConnLifecycle {
  datatype ConnState = Connecting | Connected | Disconnecting | Disconnected

  /** closes and destroys count how often the connection has been taken off the list and
      destroyed. */
  datatype Conn = Conn(fd: nat, state: ConnState, closes: nat, destroys: nat)

  datatype Net = Net(
    nextId: nat,
    conns: map<nat, Conn>,      // every connection there ever was, by name
    listed: set<nat>,           // the names on the server's list
    known: map<nat, nat>,       // descriptors the poller knows: whose they are, 0 for none
    queue: seq<nat>)            // the connections whose destruction is queued, in order

  /** Open: on the list.  Closed: waiting to be destroyed, still known to the poller.
      Destroyed: not known to the poller any more. */
  ghost predicate ConnInv(net: Net, id: nat)
    requires id in net.conns
  {
    var c := net.conns[id];
    && 0 < id < net.nextId
    && c.destroys <= c.closes <= 1
    && (c.closes == 0 <==> id in net.listed)
    && (c.closes == 0 ==> c.state == Connected || c.state == Disconnecting)
    && (c.destroys == 0 <==> c.fd in net.known && net.known[c.fd] == id)
    && (c.closes == 1 && c.destroys == 0 <==> id in net.queue)
  }

  ghost predicate Inv(net: Net) {
    && net.nextId > 0
    && (forall id :: id in net.conns ==> ConnInv(net, id))
    && net.listed <= net.conns.Keys
    && (forall fd :: fd in net.known && net.known[fd] != 0 ==>
          net.known[fd] in net.conns && net.conns[net.known[fd]].fd == fd)
    && Distinct(net.queue)
    && (forall k :: 0 <= k < |net.queue| ==> net.queue[k] in net.conns)
  }

  ghost predicate Distinct(q: seq<nat>) {
    forall j, k :: 0 <= j < k < |q| ==> q[j] != q[k]
  }

  ghost predicate IsOpen(net: Net, id: nat) {
    id in net.conns && net.conns[id].closes == 0
  }

  ghost predicate IsAlive(net: Net, id: nat) {
    id in net.conns && net.conns[id].destroys == 0
  }

  // ----- Steps -----

  /** A new connection on a descriptor the kernel has just handed out. */
  function Opened(net: Net, fd: nat): Net {
    var id := net.nextId;
    net.(nextId := id + 1, conns := net.conns[id := Conn(fd, Connected, 0, 0)],
         listed := net.listed + {id}, known := net.known[fd := id])
  }

  function Closed(net: Net, id: nat): Net
    requires id in net.conns
  {
    net.(conns := net.conns[id := net.conns[id].(closes := net.conns[id].closes + 1)],
         listed := net.listed - {id}, queue := net.queue + [id])
  }

  /** The first queued destruction runs. */
  function Destroyed(net: Net): Net
    requires net.queue != [] && net.queue[0] in net.conns
  {
    var id := net.queue[0];
    var c := net.conns[id];
    net.(conns := net.conns[id := c.(state := Disconnected, destroys := c.destroys + 1)],
         known := net.known - {c.fd}, queue := net.queue[1..])
  }

  /** shutdown(): a connected connection starts disconnecting. */
  function ShutDown(net: Net, id: nat): Net
    requires id in net.conns
  {
    net.(conns := net.conns[id := net.conns[id].(state :=
      if net.conns[id].state == Connected then Disconnecting else net.conns[id].state)])
  }

  lemma OpenedInv(net: Net, fd: nat)
    requires Inv(net) && fd !in net.known
    ensures Inv(Opened(net, fd)) && net.nextId !in net.conns && net.nextId !in net.listed
  {
    assert net.nextId in net.conns ==> ConnInv(net, net.nextId);
    var next := Opened(net, fd);
    forall id | id in next.conns ensures ConnInv(next, id) {
      if id != net.nextId {
        assert ConnInv(net, id);
      }
    }
  }

  /** Closing finds the connection on the list, in a state that may be closed, and with no
      destruction queued yet. */
  lemma ClosedInv(net: Net, id: nat)
    requires Inv(net) && IsOpen(net, id)
    ensures id in net.listed && id !in net.queue
    ensures net.conns[id].state == Connected || net.conns[id].state == Disconnecting
    ensures Inv(Closed(net, id)) && !IsOpen(Closed(net, id), id)
  {
    assert ConnInv(net, id);
    var next := Closed(net, id);
    forall x | x in next.conns ensures ConnInv(next, x) {
      assert ConnInv(net, x);
    }
  }

  /** Destroying finds the connection's entry in the poller, and leaves the entries of all
      others. */
  lemma DestroyedInv(net: Net)
    requires Inv(net) && net.queue != []
    ensures var id := net.queue[0];
            && id in net.conns && net.conns[id].closes == 1 && net.conns[id].destroys == 0
            && net.conns[id].fd in net.known && net.known[net.conns[id].fd] == id
            && !IsAlive(Destroyed(net), id)
    ensures Inv(Destroyed(net))
  {
    var id := net.queue[0];
    assert ConnInv(net, id);
    var next := Destroyed(net);
    forall x | x in next.conns ensures ConnInv(next, x) {
      assert ConnInv(net, x);
      if x != id && x in net.queue {
        var k :| 0 <= k < |net.queue| && net.queue[k] == x;
        assert next.queue[k-1] == x;
      }
    }
  }

  lemma ShutDownInv(net: Net, id: nat)
    requires Inv(net) && IsOpen(net, id)
    ensures Inv(ShutDown(net, id))
  {
    var next := ShutDown(net, id);
    forall x | x in next.conns ensures ConnInv(next, x) {
      assert ConnInv(net, x);
    }
  }

  /** The poller knows a live connection by one descriptor, its own. */
  lemma OneDescriptor(net: Net, id: nat)
    requires Inv(net) && IsAlive(net, id)
    ensures (set fd | fd in net.known && net.known[fd] == id) == {net.conns[id].fd}
  {
    assert ConnInv(net, id);
  }

  // ----- Runs -----

  /** What a server does, in order: a channel is handled (0 for the two fixed ones), which
      may call a connection's callbacks; destructions run, and the round ends. */
  datatype Event =
    | Accept(fd: nat)
    | Handle(id: nat)
    | Read(id: nat)
    | Write(id: nat)
    | Shut(id: nat)
    | Close(id: nat)
    | Destroy(id: nat)
    | EndRound

  /** What a well-behaved server may do next.  That an open connection alone is handled,
      called back, shut down and closed, and that a round ends with no destruction queued,
      is for the server to see to; the kernel only keeps descriptors in use apart. */
  ghost predicate Possible(net: Net, e: Event) {
    match e
    case Accept(fd) => fd !in net.known
    case Handle(id) => id == 0 || IsOpen(net, id)
    case Read(id) => IsOpen(net, id)
    case Write(id) => IsOpen(net, id)
    case Shut(id) => IsOpen(net, id)
    case Close(id) => IsOpen(net, id)
    case Destroy(id) => net.queue != [] && net.queue[0] == id && id in net.conns
    case EndRound => net.queue == []
  }

  ghost function Next(net: Net, e: Event): Net
    requires Possible(net, e)
  {
    match e
    case Accept(fd) => Opened(net, fd)
    case Shut(id) => ShutDown(net, id)
    case Close(id) => Closed(net, id)
    case Destroy(id) => Destroyed(net)
    case _ => net
  }

  lemma NextInv(net: Net, e: Event)
    requires Inv(net) && Possible(net, e)
    ensures Inv(Next(net, e))
  {
    match e {
      case Accept(fd) => OpenedInv(net, fd);
      case Shut(id) => ShutDownInv(net, id);
      case Close(id) => ClosedInv(net, id);
      case Destroy(id) => DestroyedInv(net);
      case _ =>
    }
  }

  function Fresh(listenfd: nat, eventfd: nat): Net {
    Net(1, map[], {}, map[eventfd := 0, listenfd := 0], [])
  }

  ghost predicate PossibleAll(net: Net, log: seq<Event>)
    decreases |log|, 0
  {
    log == [] || (PossibleAll(net, log[..|log|-1]) && Possible(RunAll(net, log[..|log|-1]), log[|log|-1]))
  }

  ghost function RunAll(net: Net, log: seq<Event>): Net
    requires PossibleAll(net, log)
    decreases |log|, 1
  {
    if log == [] then net else Next(RunAll(net, log[..|log|-1]), log[|log|-1])
  }

  lemma RunStep(net: Net, log: seq<Event>, e: Event)
    requires PossibleAll(net, log) && Possible(RunAll(net, log), e)
    ensures PossibleAll(net, log + [e]) && RunAll(net, log + [e]) == Next(RunAll(net, log), e)
  {
    assert (log + [e])[..|log|] == log;
  }

  lemma {:induction false} RunInv(net: Net, log: seq<Event>)
    requires Inv(net) && PossibleAll(net, log)
    ensures Inv(RunAll(net, log))
    decreases |log|
  {
    if log != [] {
      RunInv(net, log[..|log|-1]);
      NextInv(RunAll(net, log[..|log|-1]), log[|log|-1]);
    }
  }

  lemma {:induction false} RunPrefix(net: Net, log: seq<Event>, n: nat)
    requires PossibleAll(net, log) && n <= |log|
    ensures PossibleAll(net, log[..n])
    ensures n < |log| ==> Possible(RunAll(net, log[..n]), log[n])
    decreases |log|
  {
    if n < |log| {
      var before := log[..|log|-1];
      assert before[..n] == log[..n];
      if n < |before| {
        RunPrefix(net, before, n);
      }
    } else {
      assert log[..n] == log;
    }
  }

  predicate ClosedIn(log: seq<Event>, id: nat) { Close(id) in log }
  predicate DestroyedIn(log: seq<Event>, id: nat) { Destroy(id) in log }

  /** The counters of a run that began with no connection say what its log holds. */
  lemma {:induction false} CountersAreLogged(net: Net, log: seq<Event>, id: nat)
    requires Inv(net) && net.conns == map[] && PossibleAll(net, log)
    ensures var end := RunAll(net, log);
      && (id in end.conns ==>
            && (end.conns[id].closes == 1 <==> ClosedIn(log, id))
            && (end.conns[id].destroys == 1 <==> DestroyedIn(log, id)))
      && (ClosedIn(log, id) || DestroyedIn(log, id) ==> id in end.conns)
    decreases |log|
  {
    if log != [] {
      hide RunAll, PossibleAll, Inv, Next;
      var before, e := log[..|log|-1], log[|log|-1];
      LastLogged(net, log);
      var mid := RunAll(net, before);
      RunInv(net, before);
      CountersAreLogged(net, before, id);
      CounterStep(mid, e, id);
      assert log == before + [e];
    }
  }

  lemma LastLogged(net: Net, log: seq<Event>)
    requires PossibleAll(net, log) && log != []
    ensures var before, e := log[..|log|-1], log[|log|-1];
      && PossibleAll(net, before) && Possible(RunAll(net, before), e)
      && RunAll(net, log) == Next(RunAll(net, before), e)
  {
  }

  lemma CounterStep(net: Net, e: Event, id: nat)
    requires Inv(net) && Possible(net, e)
    ensures var next := Next(net, e);
      && (id in net.conns ==> id in next.conns)
      && (id in next.conns && id !in net.conns ==>
            e.Accept? && next.conns[id].closes == 0 && next.conns[id].destroys == 0)
      && (id in net.conns ==>
            && (next.conns[id].closes == 1 <==> net.conns[id].closes == 1 || e == Close(id))
            && (next.conns[id].destroys == 1 <==> net.conns[id].destroys == 1 || e == Destroy(id)))
      && (e == Close(id) || e == Destroy(id) ==> id in net.conns)
  {
    if id in net.conns {
      assert ConnInv(net, id);
    }
    if e.Destroy? {
      DestroyedInv(net);
    }
    if e.Accept? {
      OpenedInv(net, e.fd);
    }
  }

  /** A server whose value is net after it did what log says, from no connection on. */
  ghost predicate LogFits(start: Net, log: seq<Event>, net: Net) {
    Inv(start) && start.conns == map[] && PossibleAll(start, log) && RunAll(start, log) == net
  }

  lemma LogStep(start: Net, log: seq<Event>, net: Net, e: Event)
    requires LogFits(start, log, net) && Possible(net, e)
    ensures LogFits(start, log + [e], Next(net, e))
  {
    hide Next, Possible, Inv;
    RunStep(start, log, e);
  }

  // ----- What every run keeps -----

  /** e concerns the connection while it is open. */
  predicate Touches(e: Event, id: nat) {
    e == Handle(id) || e == Read(id) || e == Write(id) || e == Shut(id) || e == Close(id)
  }

  /** A log in which every connection is closed at most once, destroyed at most once and
      only after its close, never handled, called back, shut down or closed again after
      its close, and destroyed before the round of its close ends. */
  ghost predicate Orderly(log: seq<Event>) {
    && (forall i, j :: 0 <= i < j < |log| && log[i].Close? ==> !Touches(log[j], log[i].id))
    && (forall i, j :: 0 <= i < j < |log| && log[i].Destroy? ==> log[j] != Destroy(log[i].id))
    && (forall j :: 0 <= j < |log| && log[j].Destroy? ==> ClosedIn(log[..j], log[j].id))
    && (forall i, j :: 0 <= i < j < |log| && log[i].Close? && log[j].EndRound? ==>
          DestroyedIn(log[i..j], log[i].id))
  }

  lemma ClosedNamesExist(net: Net, log: seq<Event>, j: nat)
    requires Inv(net) && net.conns == map[] && PossibleAll(net, log) && j < |log|
    ensures PossibleAll(net, log[..j]) && Inv(RunAll(net, log[..j]))
    ensures Possible(RunAll(net, log[..j]), log[j])
  {
    RunPrefix(net, log, j);
    RunInv(net, log[..j]);
  }

  /** After its close a connection is not touched. */
  lemma NotTouchedAfterClose(net: Net, log: seq<Event>, i: nat, j: nat)
    requires Inv(net) && net.conns == map[] && PossibleAll(net, log)
    requires i < j < |log| && log[i].Close?
    ensures !Touches(log[j], log[i].id)
  {
    hide RunAll, PossibleAll;
    var id := log[i].id;
    ClosedNamesExist(net, log, i);
    ClosedNamesExist(net, log, j);
    CountersAreLogged(net, log[..j], id);
    assert log[..j][i] == Close(id);
    var at := RunAll(net, log[..j]);
    assert ConnInv(at, id);
    assert IsOpen(RunAll(net, log[..i]), id);
    assert ConnInv(RunAll(net, log[..i]), id);
  }

  lemma DestroyedOnceAfterClose(net: Net, log: seq<Event>, j: nat)
    requires Inv(net) && net.conns == map[] && PossibleAll(net, log)
    requires j < |log| && log[j].Destroy?
    ensures ClosedIn(log[..j], log[j].id) && !DestroyedIn(log[..j], log[j].id)
  {
    hide RunAll, PossibleAll;
    var id := log[j].id;
    ClosedNamesExist(net, log, j);
    CountersAreLogged(net, log[..j], id);
    DestroyedInv(RunAll(net, log[..j]));
  }

  /** With no destruction queued every closed connection has been destroyed. */
  lemma ClosedIsDestroyed(net: Net, log: seq<Event>, id: nat)
    requires Inv(net) && net.conns == map[] && PossibleAll(net, log) && RunAll(net, log).queue == []
    ensures ClosedIn(log, id) <==> DestroyedIn(log, id)
  {
    hide RunAll, PossibleAll;
    RunInv(net, log);
    CountersAreLogged(net, log, id);
    if id in RunAll(net, log).conns {
      assert ConnInv(RunAll(net, log), id);
    }
  }

  lemma DestroyedInTheRound(net: Net, log: seq<Event>, i: nat, j: nat)
    requires Inv(net) && net.conns == map[] && PossibleAll(net, log)
    requires i < j < |log| && log[i].Close? && log[j].EndRound?
    ensures DestroyedIn(log[i..j], log[i].id)
  {
    hide RunAll, PossibleAll;
    var id := log[i].id;
    ClosedNamesExist(net, log, j);
    assert log[..j][i] == Close(id);
    ClosedIsDestroyed(net, log[..j], id);
    var k :| 0 <= k < j && log[..j][k] == Destroy(id);
    if k < i {
      DestroyedOnceAfterClose(net, log, k);
      var c :| 0 <= c < k && log[..k][c] == Close(id);
      NotTouchedAfterClose(net, log, c, i);
    }
    assert log[i..j][k - i] == Destroy(id);
  }

  /** Every run that begins with no connection is orderly. */
  lemma RunsAreOrderly(net: Net, log: seq<Event>)
    requires Inv(net) && net.conns == map[] && PossibleAll(net, log)
    ensures Orderly(log)
  {
    hide RunAll, PossibleAll, Inv, Touches, ClosedIn, DestroyedIn;
    forall i, j | 0 <= i < j < |log| && log[i].Close? ensures !Touches(log[j], log[i].id) {
      NotTouchedAfterClose(net, log, i, j);
    }
    forall j | 0 <= j < |log| && log[j].Destroy?
      ensures ClosedIn(log[..j], log[j].id) && !DestroyedIn(log[..j], log[j].id)
    {
      DestroyedOnceAfterClose(net, log, j);
    }
    forall i, j | 0 <= i < j < |log| && log[i].Destroy? ensures log[j] != Destroy(log[i].id) {
      Earlier(log, i, j);
    }
    forall i, j | 0 <= i < j < |log| && log[i].Close? && log[j].EndRound?
      ensures DestroyedIn(log[i..j], log[i].id)
    {
      DestroyedInTheRound(net, log, i, j);
    }
  }

  lemma Earlier(log: seq<Event>, i: nat, j: nat)
    requires i < j < |log| && log[i].Destroy?
    ensures DestroyedIn(log[..j], log[i].id)
  {
    assert log[..j][i] == log[i];
  }

  // ----- Parts of a log -----

  /** The names closed by some events, in order. */
  function Closes(es: seq<Event>): seq<nat> {
    if es == [] then []
    else Closes(es[..|es|-1]) + (if es[|es|-1].Close? then [es[|es|-1].id] else [])
  }

  function Destroys(ids: seq<nat>): (es: seq<Event>)
    ensures |es| == |ids| && forall k :: 0 <= k < |ids| ==> es[k] == Destroy(ids[k])
  {
    seq(|ids|, k requires 0 <= k < |ids| => Destroy(ids[k]))
  }

  lemma DestroysStep(log: seq<Event>, ids: seq<nat>)
    ensures ids != [] ==> log + Destroys(ids) == log + [Destroy(ids[0])] + Destroys(ids[1..])
    ensures ids == [] ==> log + Destroys(ids) == log
  {
  }

  /** Closes queue destructions, and nothing but destructions takes them off. */
  lemma {:induction false} ClosesQueue(start: Net, log: seq<Event>, net: Net, es: seq<Event>, after: Net)
    requires LogFits(start, log, net) && LogFits(start, log + es, after)
    requires forall k :: 0 <= k < |es| ==> !es[k].Destroy?
    ensures after.queue == net.queue + Closes(es)
    decreases |es|
  {
    if es == [] {
      assert log + es == log;
    } else {
      var before := es[..|es|-1];
      assert (log + es)[..|log + es|-1] == log + before;
      ClosesQueue(start, log, net, before, RunAll(start, log + before));
    }
  }

  /** A descriptor is never shared by two connections that are still alive. */
  lemma DescriptorsApart(net: Net, a: nat, b: nat)
    requires Inv(net) && IsAlive(net, a) && IsAlive(net, b) && a != b
    ensures net.conns[a].fd != net.conns[b].fd
  {
    assert ConnInv(net, a) && ConnInv(net, b);
  }
}
