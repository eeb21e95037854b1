/** A server that runs one event loop and no other thread: poll, handle the fired channels,
    run the queued functors.  The kernel is an oracle; whatever it says is cut down to what
    epoll can report, that is each registered descriptor at most once per poll, with the
    events asked for plus errors and hang-ups, which are always reported. */
module TcpServer {
  import opened ConnLifecycle
  import opened ServerRounds
  import opened Listening

  class Channel {
    const fd: nat
    /** The connection whose callbacks are set, by name; 0 for none. */
    const owner: nat
    var events: bv32

    constructor (fd: nat, owner: nat)
      ensures this.fd == fd && this.owner == owner && events == NONE
    {
      this.fd, this.owner, events := fd, owner, NONE;
    }

    predicate IsNonEvent()
      reads this
    {
      events == NONE
    }
  }

  class TcpConnection {
    const name: nat
    const channel: Channel
    var state: ConnState

    constructor (name: nat, sockfd: nat)
      ensures this.name == name && state == Connecting
      ensures fresh(channel) && channel.fd == sockfd && channel.owner == name && channel.events == NONE
    {
      this.name := name;
      channel := new Channel(sockfd, name);
      state := Connecting;
    }
  }

  // How the server's tables, which hold objects, match its value.

  ghost predicate ConnsMatch(all: map<nat, TcpConnection>, conns: map<nat, Conn>) {
    && all.Keys == conns.Keys
    && forall id :: id in all ==>
         all[id].name == id && all[id].channel.owner == id && all[id].channel.fd == conns[id].fd
  }

  ghost predicate ListMatches(all: map<nat, TcpConnection>, connections: map<nat, TcpConnection>, listed: set<nat>) {
    && connections.Keys == listed
    && forall id :: id in connections ==> id in all && connections[id] == all[id]
  }

  /** The poller's table refers to the right channels. */
  ghost predicate PollerMatches(all: map<nat, TcpConnection>, channelMap: map<nat, Channel>,
                                wakeup: Channel, accept: Channel, known: map<nat, nat>) {
    && channelMap.Keys == known.Keys
    && (forall fd :: fd in channelMap ==> EntryOk(all, channelMap[fd], fd, known[fd], wakeup, accept))
    && wakeup != accept && wakeup.owner == 0 && accept.owner == 0
    && wakeup.fd in channelMap && channelMap[wakeup.fd] == wakeup
    && accept.fd in channelMap && channelMap[accept.fd] == accept
  }

  ghost predicate EntryOk(all: map<nat, TcpConnection>, ch: Channel, fd: nat, owner: nat,
                          wakeup: Channel, accept: Channel) {
    && ch.fd == fd && ch.owner == owner
    && (owner == 0 ==> ch == wakeup || ch == accept)
    && (owner != 0 ==> owner in all && all[owner].channel == ch)
  }

  /** A fired channel that may be handled: one of the two fixed ones, or that of a
      connection that is open, so neither closed nor destroyed. */
  ghost predicate MayHandle(all: map<nat, TcpConnection>, net: Net, ch: Channel) {
    ch.owner != 0 ==> ch.owner in all && all[ch.owner].channel == ch && IsOpen(net, ch.owner)
  }

  ghost predicate FiredOk(all: map<nat, TcpConnection>, net: Net, fired: seq<Channel>, k: nat) {
    && (forall j :: k <= j < |fired| ==> MayHandle(all, net, fired[j]))
    && (forall i, j :: 0 <= i < j < |fired| ==> fired[i] != fired[j])
  }

  /** The fired channels are those the reports name. */
  predicate FiredBy(channelMap: map<nat, Channel>, fired: seq<Channel>, reports: seq<Ready>) {
    && |fired| == |reports|
    && forall k :: 0 <= k < |fired| ==> reports[k].fd in channelMap && fired[k] == channelMap[reports[k].fd]
  }

  lemma OneMoreFired(all: map<nat, TcpConnection>, net: Net, channelMap: map<nat, Channel>,
                     fired: seq<Channel>, reports: seq<Ready>, r: Ready)
    requires FiredBy(channelMap, fired, reports) && FiredOk(all, net, fired, 0)
    requires r.fd in channelMap && channelMap[r.fd] !in fired && MayHandle(all, net, channelMap[r.fd])
    ensures FiredBy(channelMap, fired + [channelMap[r.fd]], reports + [r])
    ensures FiredOk(all, net, fired + [channelMap[r.fd]], 0)
  {
  }

  lemma NextFired(all: map<nat, TcpConnection>, net: Net, fired: seq<Channel>, k: nat)
    requires k < |fired| && FiredOk(all, net, fired, k)
    ensures MayHandle(all, net, fired[k]) && FiredOk(all, net, fired, k + 1)
    ensures forall j :: k < j < |fired| ==> fired[j] != fired[k]
  {
  }

  lemma NoneFired(all: map<nat, TcpConnection>, net: Net, channelMap: map<nat, Channel>)
    ensures FiredBy(channelMap, [], []) && FiredOk(all, net, [], 0)
  {
  }

  /** Handling one channel leaves the later ones handleable. */
  lemma StillFired(all: map<nat, TcpConnection>, net: Net, all': map<nat, TcpConnection>, net': Net,
                   fired: seq<Channel>, k: nat)
    requires k < |fired| && FiredOk(all, net, fired, k)
    requires OnlyChanged(net, net', fired[k].owner)
    requires all.Keys <= all'.Keys && forall id :: id in all ==> all'[id] == all[id]
    ensures FiredOk(all', net', fired, k + 1)
  {
    forall j | k + 1 <= j < |fired| ensures MayHandle(all', net', fired[j]) {
      assert MayHandle(all, net, fired[j]) && MayHandle(all, net, fired[k]);
    }
  }

  class Server {
    const wakeupChannel: Channel
    const acceptChannel: Channel
    var nextConnId: nat
    var connections: map<nat, TcpConnection>
    /** The poller's table, and the events the kernel has been asked for. */
    var channelMap: map<nat, Channel>
    var interest: map<nat, bv32>
    /** The connectDestroyed functors, each by the name of the connection it has captured:
        those of the batch being run, and those queued. */
    var batch: seq<nat>
    var pending: seq<nat>
    /** Every connection there ever was, by name: what the channels' callbacks refer to. */
    var all: map<nat, TcpConnection>

    /** The server as a value, what it has done since it had no connection, and its value then. */
    ghost var net: Net
    ghost var log: seq<Event>
    ghost const start: Net

    ghost function Conns(): (s: set<object>)
      reads this`all
      ensures this !in s && forall id :: id in all ==> all[id] in s
    {
      set id | id in all :: all[id] as object
    }

    ghost predicate Valid()
      reads this, Conns()
    {
      && Inv(net)
      && nextConnId == net.nextId
      && ConnsMatch(all, net.conns)
      && ListMatches(all, connections, net.listed)
      && PollerMatches(all, channelMap, wakeupChannel, acceptChannel, net.known)
      && channelMap.Keys == interest.Keys
      && batch + pending == net.queue
      && StatesMatch(net.conns)
      && LogFits(start, log, net)
    }

    ghost predicate StatesMatch(conns: map<nat, Conn>)
      reads this`all, Conns()
    {
      forall id :: id in all && id in conns ==> all[id].state == conns[id].state
    }

    /** c is one of the server's connections, and open. */
    ghost predicate Open(c: TcpConnection)
      reads this`all, this`net
    {
      c.name in all && all[c.name] == c && IsOpen(net, c.name)
    }

    constructor (listenfd: nat, eventfd: nat)
      requires listenfd != eventfd
      ensures Valid() && start == net == Fresh(listenfd, eventfd) && log == []
      ensures wakeupChannel.fd == eventfd && acceptChannel.fd == listenfd
      ensures channelMap == map[eventfd := wakeupChannel, listenfd := acceptChannel]
      ensures interest == map[eventfd := READ, listenfd := READ] && nextConnId == 1
      ensures fresh(wakeupChannel) && fresh(acceptChannel)
    {
      var w := new Channel(eventfd, 0);
      var a := new Channel(listenfd, 0);
      wakeupChannel, acceptChannel := w, a;
      nextConnId, connections, pending, batch, all := 1, map[], [], [], map[];
      channelMap := map[eventfd := w, listenfd := a];
      interest := map[eventfd := READ, listenfd := READ];
      net, start, log := Fresh(listenfd, eventfd), Fresh(listenfd, eventfd), [];
      w.events := READ;
      a.events := READ;
    }

    /** Something happens that changes no table: a channel is handled, a callback called, a
        round ends. */
    ghost method Note(e: Event)
      requires Valid() && Possible(net, e) && Next(net, e) == net
      modifies this`log
      ensures Valid() && log == old(log) + [e]
    {
      hide Inv, ListMatches, ConnsMatch, PollerMatches, LogFits, Possible, Next;
      LogStep(start, log, net, e);
      log := log + [e];
    }

    ghost function Now(): Tables
      reads this
    {
      Tables(interest, net.known, nextConnId)
    }

    // ----- Poller -----

    method UpdateEvent(ch: Channel)
      modifies this`channelMap, this`interest
      ensures channelMap == if ch.fd in old(channelMap) then old(channelMap) else old(channelMap)[ch.fd := ch]
      ensures interest == old(interest)[ch.fd := ch.events]
    {
      if ch.fd !in channelMap {
        channelMap := channelMap[ch.fd := ch];
      }
      interest := interest[ch.fd := ch.events];
    }

    /** Forgets a channel; returns how many entries were erased. */
    method RemoveEvent(ch: Channel) returns (n: nat)
      modifies this`channelMap, this`interest
      ensures n == if ch.fd in old(channelMap) then 1 else 0
      ensures channelMap == old(channelMap) - {ch.fd} && interest == old(interest) - {ch.fd}
    {
      n := if ch.fd in channelMap then 1 else 0;
      channelMap := channelMap - {ch.fd};
      interest := interest - {ch.fd};
    }

    /** Changing the events of a channel the poller knows changes no table. */
    method SetEvents(ch: Channel, events: bv32)
      requires Valid() && ch.fd in channelMap
      modifies ch`events, this`channelMap, this`interest
      ensures Valid() && channelMap == old(channelMap)
      ensures ch.events == events && interest == old(interest)[ch.fd := events]
    {
      hide Inv, ConnsMatch, ListMatches, PollerMatches, LogFits;
      ch.events := events;
      UpdateEvent(ch);
    }

    // ----- Closing and destroying -----

    /** Takes an open connection off the list, where it is found exactly once, and queues
        its destruction. */
    method RemoveConnectionInLoop(c: TcpConnection)
      requires Valid() && Open(c)
      modifies this`connections, this`pending, this`net, this`log
      ensures Valid() && net == Closed(old(net), c.name) && log == old(log) + [Close(c.name)]
      ensures pending == old(pending) + [c.name] && connections == old(connections) - {c.name}
      ensures c.name in old(connections) && old(connections)[c.name] == c
    {
      hide Inv, PollerMatches, ConnsMatch, ListMatches, LogFits, Closed;
      ClosedInv(net, c.name);
      ClosedTables(c.name);
      LogStep(start, log, net, Close(c.name));
      var n := if c.name in connections then 1 else 0;
      connections := connections - {c.name};
      assert n == 1;
      pending := pending + [c.name];
      net := Closed(net, c.name);
      log := log + [Close(c.name)];
    }

    lemma ClosedTables(id: nat)
      requires Valid() && id in all && IsOpen(net, id)
      ensures var after := Closed(net, id);
              && after.nextId == net.nextId && after.known == net.known && after.queue == batch + (pending + [id])
              && id in connections && connections[id] == all[id] && ListMatches(all, connections - {id}, after.listed)
              && ConnsMatch(all, after.conns) && StatesMatch(after.conns)
    {
      hide PollerMatches, LogFits;
      ClosedInv(net, id);
    }

    method HandleClose(c: TcpConnection)
      requires Valid() && Open(c)
      modifies this`connections, this`pending, this`channelMap, this`interest, this`net, this`log, c.channel`events
      ensures Valid() && net == Closed(old(net), c.name) && log == old(log) + [Close(c.name)]
      ensures c.channel.events == NONE && channelMap == old(channelMap)
      ensures c.channel.fd in old(interest) && interest == old(interest)[c.channel.fd := NONE]
    {
      hide Inv, PollerMatches, ConnsMatch, ListMatches, Closed, LogFits;
      KnownWhileAlive(c);
      ClosedInv(net, c.name);
      assert c.state == Connected || c.state == Disconnecting;
      SetEvents(c.channel, NONE);
      RemoveConnectionInLoop(c);
    }

    lemma KnownWhileAlive(c: TcpConnection)
      requires Valid() && c.name in all && all[c.name] == c && (IsOpen(net, c.name) || IsAlive(net, c.name))
      ensures c.channel.fd in channelMap && channelMap[c.channel.fd] == c.channel && c.channel.fd in interest
      ensures c.name in net.conns && c.channel.fd == net.conns[c.name].fd && c.channel.owner == c.name != 0
    {
      assert ConnInv(net, c.name);
      assert EntryOk(all, channelMap[c.channel.fd], c.channel.fd, c.name, wakeupChannel, acceptChannel);
    }

    /** The queued functor: the connection leaves the poller, where it is found exactly once. */
    method ConnectDestroyed(c: TcpConnection)
      requires Valid() && batch != [] && c.name == batch[0] && c.name in all && c == all[c.name]
      modifies this`batch, this`channelMap, this`interest, this`net, this`log, c`state, c.channel`events
      ensures Valid() && net == Destroyed(old(net)) && batch == old(batch)[1..]
      ensures log == old(log) + [Destroy(c.name)] && Now() == Gone(old(Now()), c.name)
      ensures c.state == Disconnected && c.channel.events == NONE
    {
      hide Inv, ListMatches, ConnsMatch, PollerMatches, Destroyed, StatesMatch, Conns, LogFits, Gone;
      QueueHead();
      DestroyedInv(net);
      DestroyedTables(c.name);
      GoneIs(c.name);
      LogStep(start, log, net, Destroy(c.name));
      LeavePoller(c, Destroyed(net).conns);
      assert this !in Conns();
      net := Destroyed(net);
      log := log + [Destroy(c.name)];
      batch := batch[1..];
    }

    lemma GoneIs(id: nat)
      requires Inv(net) && IsAlive(net, id)
      ensures Gone(Now(), id) ==
        Tables(interest - {net.conns[id].fd}, net.known - {net.conns[id].fd}, nextConnId)
    {
      hide Inv;
      OneDescriptor(net, id);
    }

    method LeavePoller(c: TcpConnection, ghost after: map<nat, Conn>)
      requires Valid() && c.name in all && all[c.name] == c && IsAlive(net, c.name)
      requires c.name in after && after == net.conns[c.name := after[c.name]] && after[c.name].state == Disconnected
      modifies this`channelMap, this`interest, c`state, c.channel`events
      ensures c.state == Disconnected && c.channel.events == NONE
      ensures StatesMatch(after) && channelMap == old(channelMap) - {net.conns[c.name].fd}
      ensures channelMap.Keys == interest.Keys && interest == old(interest) - {net.conns[c.name].fd}
    {
      hide Inv, ListMatches, ConnsMatch, PollerMatches, IsAlive, LogFits;
      KnownWhileAlive(c);
      OwnNames();
      SetEvents(c.channel, NONE);
      c.state := Disconnected;
      var n := RemoveEvent(c.channel);
      assert n == 1;
    }

    lemma OwnNames()
      requires Valid()
      ensures forall id :: id in all ==> id in net.conns && all[id].name == id
    {
    }

    lemma QueueHead()
      requires batch != [] && batch + pending == net.queue
      ensures net.queue != [] && net.queue[0] == batch[0] && net.queue[1..] == batch[1..] + pending
    {
    }

    lemma DestroyedTables(id: nat)
      requires Valid() && net.queue != [] && net.queue[0] == id && IsAlive(net, id)
      ensures var after := Destroyed(net);
              && after.nextId == net.nextId && after.listed == net.listed && after.queue == net.queue[1..]
              && after.known == net.known - {net.conns[id].fd}
              && ConnsMatch(all, after.conns)
              && PollerMatches(all, channelMap - {net.conns[id].fd}, wakeupChannel, acceptChannel, after.known)
              && after.conns == net.conns[id := after.conns[id]] && after.conns[id].state == Disconnected
    {
      KnownWhileAlive(all[id]);
    }

    // ----- Accepting -----

    /** A new connection under the next name; its channel enters the poller, and the user's
        connection callback is called. */
    method NewConnection(sockfd: nat, r: Ready)
      requires Valid() && sockfd !in channelMap && r.accepted == sockfd
      modifies this`nextConnId, this`connections, this`all, this`channelMap, this`interest, this`net, this`log
      ensures Valid() && log == old(log) + AcceptReaction(r, old(nextConnId))
      ensures Now() == Entered(r, old(Now())) && channelMap.Keys == old(channelMap).Keys + {sockfd}
      ensures sockfd in interest && Has(interest[sockfd], READ) && (Has(interest[sockfd], WRITE) <==> r.greetSends)
      ensures old(nextConnId) !in old(all) && all == old(all)[old(nextConnId) := all[old(nextConnId)]]
      ensures fresh(all[old(nextConnId)]) && fresh(all[old(nextConnId)].channel)
      ensures OnlyChanged(old(net), net, 0)
    {
      hide Inv, ListMatches, ConnsMatch, PollerMatches, Opened, LogFits, ShutDown, GreetAsks, With, Entered, Has;
      assert forall id :: id in all ==> all[id] in Conns();
      NextIsNumber();
      EnteredAsks(r, Now());
      var conn := new TcpConnection(nextConnId, sockfd);
      OnlyOpened(net, sockfd);
      EnteredIs(r);
      EnterConnection(conn, sockfd);
      UserCallback(conn, r.greetShuts, r.greetSends);
    }

    lemma EnteredIs(r: Ready)
      requires r.accepted >= 0 && nextConnId == net.nextId
      ensures var entered := Opened(net, r.accepted);
              && Entered(r, Now()) ==
                   Tables(interest[r.accepted := GreetAsks(r)], entered.known, nextConnId + 1)
              && ShutDown(entered, net.nextId).known == entered.known
      ensures interest[r.accepted := With(NONE, READ)][r.accepted := GreetAsks(r)] ==
        interest[r.accepted := GreetAsks(r)]
      ensures GreetAsks(r) == if r.greetSends then With(With(NONE, READ), WRITE) else With(NONE, READ)
      ensures !Has(With(NONE, READ), WRITE)
    {
    }

    lemma NextIsNumber()
      requires Valid()
      ensures nextConnId == net.nextId && net.nextId !in net.conns
    {
      hide ListMatches, PollerMatches, StatesMatch, LogFits;
      assert net.nextId in net.conns ==> ConnInv(net, net.nextId);
    }

    /** The new object goes into the list, its state is set and its channel enters the poller. */
    method EnterConnection(conn: TcpConnection, sockfd: nat)
      requires Valid() && sockfd !in channelMap
      requires forall id :: id in all ==> all[id] != conn
      requires conn.name == net.nextId == conn.channel.owner && conn.channel.fd == sockfd && conn.channel.events == NONE
      modifies this`nextConnId, this`connections, this`all, this`channelMap, this`interest, this`net, this`log
      modifies conn`state, conn.channel`events
      ensures Valid() && net == Opened(old(net), sockfd) && log == old(log) + [Event.Accept(sockfd)]
      ensures nextConnId == old(nextConnId) + 1 && channelMap == old(channelMap)[sockfd := conn.channel]
      ensures conn.channel.events == With(NONE, READ) && interest == old(interest)[sockfd := With(NONE, READ)]
      ensures conn.name !in old(all) && all == old(all)[conn.name := conn] && Open(conn)
      ensures connections == old(connections)[conn.name := conn] && conn.state == Connected
    {
      hide Inv, ListMatches, ConnsMatch, PollerMatches, Opened, LogFits;
      EnterTables(conn, sockfd);
      nextConnId := nextConnId + 1;
      connections := connections[conn.name := conn];
      ConnectEstablished(conn);
      StatesGrow(conn, sockfd);
      all := all[conn.name := conn];
      net := Opened(net, sockfd);
      log := log + [Event.Accept(sockfd)];
    }

    /** The connection starts reading: its channel enters the poller and the kernel is asked
        for what the channel wants.  (The user's connection callback is called once the
        connection is known, in NewConnection.) */
    method ConnectEstablished(conn: TcpConnection)
      requires conn.channel.fd !in channelMap
      modifies this`channelMap, this`interest, conn`state, conn.channel`events
      ensures conn.state == Connected && channelMap == old(channelMap)[conn.channel.fd := conn.channel]
      ensures conn.channel.events == With(old(conn.channel.events), READ)
      ensures interest == old(interest)[conn.channel.fd := conn.channel.events]
    {
      conn.state := Connected;
      conn.channel.events := With(conn.channel.events, READ);
      UpdateEvent(conn.channel);
    }

    /** What entering a connection will make of the tables. */
    lemma EnterTables(conn: TcpConnection, sockfd: nat)
      requires Valid() && sockfd !in channelMap
      requires conn.name == net.nextId == conn.channel.owner && conn.channel.fd == sockfd
      ensures var after := Opened(net, sockfd);
              && conn.name !in all
              && Inv(after) && after.nextId == nextConnId + 1 && after.queue == batch + pending
              && LogFits(start, log + [Event.Accept(sockfd)], after) && IsOpen(after, conn.name)
              && ConnsMatch(all[conn.name := conn], after.conns)
              && ListMatches(all[conn.name := conn], connections[conn.name := conn], after.listed)
              && PollerMatches(all[conn.name := conn], channelMap[sockfd := conn.channel],
                               wakeupChannel, acceptChannel, after.known)
      ensures channelMap.Keys + {sockfd} == interest.Keys + {sockfd}
    {
      hide Inv, ListMatches, ConnsMatch, PollerMatches, StatesMatch, LogFits;
      KnownDescriptors();
      OpenedInv(net, sockfd);
      OpenedTables(conn, sockfd);
      LogStep(start, log, net, Event.Accept(sockfd));
    }

    lemma StatesGrow(conn: TcpConnection, sockfd: nat)
      requires StatesMatch(net.conns) && conn.state == Connected && conn.name == net.nextId
      ensures var after := Opened(net, sockfd).conns;
        forall id :: id in all[conn.name := conn] && id in after ==>
          all[conn.name := conn][id].state == after[id].state
    {
    }

    lemma KnownDescriptors()
      requires Valid()
      ensures channelMap.Keys == interest.Keys == net.known.Keys && all.Keys == net.conns.Keys
      ensures net.nextId > 0 && nextConnId == net.nextId && LogFits(start, log, net)
    {
      hide LogFits, StatesMatch;
    }

    lemma OpenedTables(conn: TcpConnection, sockfd: nat)
      requires ConnsMatch(all, net.conns) && ListMatches(all, connections, net.listed)
      requires PollerMatches(all, channelMap, wakeupChannel, acceptChannel, net.known)
      requires sockfd !in channelMap && net.nextId !in all && net.nextId > 0
      requires conn.name == net.nextId == conn.channel.owner && conn.channel.fd == sockfd
      ensures var after := Opened(net, sockfd);
              && ConnsMatch(all[net.nextId := conn], after.conns)
              && ListMatches(all[net.nextId := conn], connections[net.nextId := conn], after.listed)
              && PollerMatches(all[net.nextId := conn], channelMap[sockfd := conn.channel],
                               wakeupChannel, acceptChannel, after.known)
    {
      hide ConnsMatch, ListMatches, PollerMatches, Opened;
      OpenedNames(conn, sockfd);
      OpenedPoller(conn, sockfd);
    }

    lemma OpenedNames(conn: TcpConnection, sockfd: nat)
      requires ConnsMatch(all, net.conns) && ListMatches(all, connections, net.listed)
      requires net.nextId !in all && net.nextId > 0
      requires conn.name == net.nextId == conn.channel.owner && conn.channel.fd == sockfd
      ensures ConnsMatch(all[net.nextId := conn], Opened(net, sockfd).conns)
      ensures ListMatches(all[net.nextId := conn], connections[net.nextId := conn], Opened(net, sockfd).listed)
    {
    }

    lemma OpenedPoller(conn: TcpConnection, sockfd: nat)
      requires PollerMatches(all, channelMap, wakeupChannel, acceptChannel, net.known)
      requires sockfd !in channelMap && net.nextId !in all && net.nextId > 0
      requires conn.name == net.nextId == conn.channel.owner && conn.channel.fd == sockfd
      ensures PollerMatches(all[net.nextId := conn], channelMap[sockfd := conn.channel],
                            wakeupChannel, acceptChannel, Opened(net, sockfd).known)
    {
    }

    // ----- Events of a connection -----

    /** shutdown(): only a connected connection starts disconnecting. */
    method Shutdown(c: TcpConnection)
      requires Valid() && Open(c)
      modifies this`net, this`log, c`state
      ensures Valid() && Open(c) && net == ShutDown(old(net), c.name) && log == old(log) + [Shut(c.name)]
      ensures c.state == if old(c.state) == Connected then Disconnecting else old(c.state)
    {
      hide Inv, ListMatches, ConnsMatch, PollerMatches, LogFits;
      ShutDownInv(net, c.name);
      ShutDownTables(c.name);
      OwnNames();
      LogStep(start, log, net, Shut(c.name));
      if c.state == Connected {
        c.state := Disconnecting;
      }
      net := ShutDown(net, c.name);
      log := log + [Shut(c.name)];
    }

    /** A callback of the user's, for a new connection or for data: it may shut the
        connection down, and may leave output that is to be written when the descriptor is
        ready. */
    method UserCallback(c: TcpConnection, shuts: bool, sends: bool)
      requires Valid() && Open(c)
      modifies this`channelMap, this`interest, this`net, this`log, c`state, c.channel`events
      ensures Valid() && Open(c) && channelMap == old(channelMap)
      ensures net == if shuts then ShutDown(old(net), c.name) else old(net)
      ensures log == old(log) + if shuts then [Shut(c.name)] else []
      ensures c.channel.events == if sends then With(old(c.channel.events), WRITE) else old(c.channel.events)
      ensures interest ==
        if sends && !Has(old(c.channel.events), WRITE)
        then old(interest)[c.channel.fd := With(old(c.channel.events), WRITE)] else old(interest)
      ensures forall g :: Has(c.channel.events, g) <==> Has(old(c.channel.events), g) || (sends && Has(WRITE, g))
      ensures sends && !Has(old(c.channel.events), WRITE) ==>
        c.channel.fd in interest && interest[c.channel.fd] == c.channel.events
    {
      hide Inv, ListMatches, ConnsMatch, PollerMatches, StatesMatch, ShutDown, LogFits, With, Has;
      WithEach(c.channel.events, WRITE);
      NotAsked(c.channel.events);
      if shuts {
        Shutdown(c);
      }
      KnownWhileAlive(c);
      if sends && !Has(c.channel.events, WRITE) {
        SetEvents(c.channel, With(c.channel.events, WRITE));
      }
    }

    lemma ShutDownTables(id: nat)
      requires Valid() && IsOpen(net, id)
      ensures ConnsMatch(all, ShutDown(net, id).conns)
    {
    }

    /** Data, the end of the stream, or an error. */
    method HandleRead(c: TcpConnection, r: Ready)
      requires Valid() && Open(c)
      modifies this`connections, this`pending, this`channelMap, this`interest, this`net, this`log
      modifies c`state, c.channel`events
      ensures Valid() && channelMap == old(channelMap)
      ensures log == old(log) + ReadReaction(c.name, r)
      ensures r.readCount == 0 ==> net == Closed(old(net), c.name) && c.channel.events == NONE
      ensures r.readCount != 0 ==> Open(c)
      ensures r.readCount > 0 && r.shuts ==> net == ShutDown(old(net), c.name)
      ensures r.readCount < 0 || (r.readCount > 0 && !r.shuts) ==> net == old(net)
      ensures c.channel.events == ReadLeaves(old(c.channel.events), r)
      ensures c.channel.fd in old(interest)
      ensures interest ==
        old(interest)[c.channel.fd := ReadAsks(old(interest)[c.channel.fd], old(c.channel.events), r)]
      ensures net.known == old(net).known
      ensures r.readCount > 0 ==>
        forall g :: Has(c.channel.events, g) <==> Has(old(c.channel.events), g) || (r.sends && Has(WRITE, g))
      ensures r.readCount > 0 && r.sends ==> Has(c.channel.events, WRITE)
      ensures r.readCount > 0 && r.sends && !Has(old(c.channel.events), WRITE) ==>
        interest[c.channel.fd] == c.channel.events
    {
      hide Inv, ListMatches, ConnsMatch, PollerMatches, StatesMatch, ShutDown, Closed, LogFits, With, Has;
      ReadAlone();
      KnownWhileAlive(c);
      KnownKept(net, c.name);
      AskedTwice(interest, c.channel.fd, NONE, NONE);
      Note(Read(c.name));
      if r.readCount > 0 {
        UserCallback(c, r.shuts, r.sends);
      } else if r.readCount == 0 {
        HandleClose(c);
      }
    }

    /** An open connection for which neither reading nor writing is asked is one the kernel
        never reports as ready again. */
    lemma UnheardIff(c: TcpConnection)
      requires Valid() && Open(c)
      ensures c.channel.fd in interest
      ensures Unheard(Now(), c.name) <==>
        !Has(interest[c.channel.fd], READ) && !Has(interest[c.channel.fd], WRITE)
    {
      hide ListMatches, ConnsMatch, StatesMatch, LogFits, Has;
      KnownDescriptors();
      KnownWhileAlive(c);
      OneDescriptor(net, c.name);
      NamesBelow(c.name);
    }

    lemma NamesBelow(id: nat)
      requires Valid() && id in net.conns
      ensures 0 < id < nextConnId
    {
      hide ListMatches, ConnsMatch, PollerMatches, StatesMatch, LogFits;
      assert ConnInv(net, id);
    }

    /** When the rest of the output has been written, writing is no longer asked for. */
    method HandleWrite(c: TcpConnection, r: Ready)
      requires Valid() && Open(c)
      modifies this`channelMap, this`interest, this`log, c.channel`events
      ensures Valid() && channelMap == old(channelMap) && log == old(log) + [Write(c.name)]
      ensures c.channel.events == if r.drained then Without(old(c.channel.events), WRITE) else old(c.channel.events)
      ensures c.channel.fd in old(interest)
      ensures interest ==
        old(interest)[c.channel.fd := WriteAsks(old(interest)[c.channel.fd], old(c.channel.events), r)]
    {
      hide Inv, ListMatches, ConnsMatch, PollerMatches, LogFits, StatesMatch, Has, Without;
      KnownWhileAlive(c);
      AskedTwice(interest, c.channel.fd, NONE, NONE);
      Note(Write(c.name));
      KnownWhileAlive(c);
      NotAsked(c.channel.events);
      if Has(c.channel.events, WRITE) && r.drained {
        SetEvents(c.channel, Without(c.channel.events, WRITE));
      }
    }

    lemma KnownKept(net: Net, id: nat)
      requires id in net.conns
      ensures Closed(net, id).known == net.known && ShutDown(net, id).known == net.known
    {
    }

    /** The callbacks of a fired connection channel.  The events are read again before each
        callback, and closing clears them, so a close is never followed by another callback. */
    method HandleConnEvent(c: TcpConnection, r: Ready)
      requires Valid() && Open(c)
      modifies this`connections, this`pending, this`channelMap, this`interest, this`net, this`log
      modifies c`state, c.channel`events
      ensures Valid() && channelMap == old(channelMap)
      ensures OnlyChanged(old(net), net, c.name)
      ensures log == old(log) + ConnReaction(c.name, old(c.channel.events), r)
      ensures c.channel.fd in old(interest) && net.known == old(net).known
      ensures interest ==
        old(interest)[c.channel.fd := ConnAsks(old(interest)[c.channel.fd], old(c.channel.events), r)]
      ensures var was := old(c.channel.events);
        !Has(was, ERROR) && Has(was, READ) && !Has(was, WRITE) && r.readCount > 0 && r.sends && !r.drained ==>
          forall g :: Has(interest[c.channel.fd], g) <==> Has(was, g) || Has(WRITE, g)
    {
      hide Inv, ListMatches, ConnsMatch, PollerMatches, StatesMatch, LogFits, Has, ConnReaction, ReadReaction,
        ReadLeaves, AfterRead, ConnAsks, ReadAsks, WriteAsks, With;
      NoneHas();
      KnownWhileAlive(c);
      if !Has(c.channel.events, ERROR) && Has(c.channel.events, READ) && !Has(c.channel.events, WRITE) &&
        r.readCount > 0 && r.sends && !r.drained {
        ConnKeepsAsking(interest[c.channel.fd], c.channel.events, r);
      }
      KnownKept(net, c.name);
      ghost var asked := interest[c.channel.fd];
      ConnAsksIs(asked, c.channel.events, r);
      AskedTwice(interest, c.channel.fd, ReadAsks(asked, c.channel.events, r), ConnAsks(asked, c.channel.events, r));
      ConnLog(log, c.name, c.channel.events, r);
      EndsAtClose(r, c.channel.events);
      if Has(c.channel.events, ERROR) {
        HandleClose(c);
      }
      if Has(c.channel.events, READ) {
        HandleRead(c, r);
      }
      if Has(c.channel.events, WRITE) {
        HandleWrite(c, r);
      }
    }

    // ----- One turn of the loop -----

    ghost function Channels(): (s: set<object>)
      reads this`all
    {
      set id | id in all :: all[id].channel as object
    }

    ghost predicate Mine(ch: Channel)
      reads this`all
    {
      ch == wakeupChannel || ch == acceptChannel || ch in Channels()
    }

    ghost function Fixed(): set<nat> { {wakeupChannel.fd, acceptChannel.fd} }

    /** epoll_wait and fillFiredEvents: whatever an oracle says, the kernel reports each
        registered descriptor at most once, with allowed events, and the reported events
        are stored in the channels. */
    method Poll(oracle: seq<Ready>) returns (fired: seq<Channel>, reports: seq<Ready>)
      requires Valid() && net.queue == []
      modifies wakeupChannel, acceptChannel, Channels()
      ensures Valid() && FiredBy(channelMap, fired, reports) && FiredOk(all, net, fired, 0)
      ensures reports == Reported(oracle, interest, Fixed())
      ensures Stored(fired, reports)
    {
      hide Inv, ListMatches, ConnsMatch, PollerMatches, LogFits, StatesMatch, Reported, FiredOk, FiredBy, Stored;
      fired, reports := [], [];
      var i := 0;
      AllReported(oracle, interest, Fixed());
      NoneFired(all, net, channelMap);
      NoneStored();
      while i < |oracle|
        invariant 0 <= i <= |oracle|
        invariant Valid() && FiredBy(channelMap, fired, reports) && FiredOk(all, net, fired, 0)
        invariant reports == Reported(oracle[..i], interest, Fixed())
        invariant Stored(fired, reports)
        modifies wakeupChannel, acceptChannel, Channels()
      {
        ReportedStep(oracle, i, interest, Fixed());
        fired, reports := FillOne(oracle[i], fired, reports);
        i := i + 1;
      }
    }

    /** Each fired channel holds the events reported for it. */
    ghost predicate Stored(fired: seq<Channel>, reports: seq<Ready>)
      reads this`all, set ch | ch in fired
    {
      |fired| == |reports| && forall k :: 0 <= k < |fired| ==> fired[k].events == reports[k].events && Mine(fired[k])
    }

    lemma NoneStored()
      ensures Stored([], [])
    {
    }

    lemma OneMoreStored(fired: seq<Channel>, reports: seq<Ready>, ch: Channel, report: Ready)
      requires Stored(fired, reports) && ch.events == report.events && Mine(ch)
      ensures Stored(fired + [ch], reports + [report])
    {
    }

    method FillOne(r: Ready, fired: seq<Channel>, reports: seq<Ready>)
      returns (fired': seq<Channel>, reports': seq<Ready>)
      requires Valid() && net.queue == []
      requires FiredBy(channelMap, fired, reports) && FiredOk(all, net, fired, 0) && Stored(fired, reports)
      modifies wakeupChannel, acceptChannel, Channels()
      ensures Valid() && FiredBy(channelMap, fired', reports') && FiredOk(all, net, fired', 0)
      ensures Stored(fired', reports')
      ensures reports' == Listed(reports, r, interest, Fixed())
    {
      hide Inv, ListMatches, ConnsMatch, PollerMatches, LogFits, FiredOk, MayHandle, Allowed, Mentioned, FiredBy, Mine,
        Listed, Masked, WithEvents, StatesMatch, Stored;
      fired', reports' := fired, reports;
      ListedIs(reports, r, interest, Fixed());
      AllowedIs(r, interest, Fixed());
      if r.fd in interest {
        var ch := channelMap[r.fd];
        KnownMayBeHandled(r.fd);
        var events := Masked(r.events, interest[r.fd], ch.owner == 0);
        FiredMentioned(fired, reports, r.fd);
        assert events == Allowed(r, interest, Fixed());
        if events != NONE && ch !in fired {
          var report := WithEvents(r, events);
          OneMoreFired(all, net, channelMap, fired, reports, report);
          StoreEvents(ch, events, fired, reports);
          OneMoreStored(fired, reports, ch, report);
          fired', reports' := fired + [ch], reports + [report];
        }
      }
    }

    /** setEvent: no channel that fired before is touched. */
    method StoreEvents(ch: Channel, events: bv32, ghost fired: seq<Channel>, ghost reports: seq<Ready>)
      requires Valid() && ch !in fired && Stored(fired, reports)
      modifies ch`events
      ensures Valid() && Stored(fired, reports) && ch.events == events
    {
      hide Inv, ListMatches, ConnsMatch, PollerMatches, LogFits, Mine;
      ch.events := events;
    }

    /** A channel has fired exactly when its descriptor was reported. */
    lemma FiredMentioned(fired: seq<Channel>, reports: seq<Ready>, fd: nat)
      requires Valid() && fd in channelMap && FiredBy(channelMap, fired, reports)
      ensures channelMap[fd] in fired <==> Mentioned(reports, fd)
    {
      hide Inv, ListMatches, ConnsMatch, StatesMatch, LogFits;
      assert EntryOk(all, channelMap[fd], fd, net.known[fd], wakeupChannel, acceptChannel);
      if channelMap[fd] in fired {
        var k :| 0 <= k < |fired| && fired[k] == channelMap[fd];
        var x := reports[k].fd;
        assert EntryOk(all, channelMap[x], x, net.known[x], wakeupChannel, acceptChannel);
      }
    }

    /** With no destruction queued, every connection the poller knows is open. */
    lemma KnownMayBeHandled(fd: nat)
      requires Valid() && net.queue == [] && fd in channelMap
      ensures MayHandle(all, net, channelMap[fd])
      ensures channelMap[fd] == wakeupChannel || channelMap[fd] == acceptChannel || channelMap[fd] in Channels()
      ensures channelMap[fd].owner == 0 <==> fd in Fixed()
      ensures channelMap[fd].fd == fd
      ensures fd in net.known && channelMap[fd].owner == net.known[fd]
      ensures channelMap[fd] == acceptChannel <==> fd == acceptChannel.fd
    {
      var ch := channelMap[fd];
      assert EntryOk(all, ch, fd, net.known[fd], wakeupChannel, acceptChannel);
      if ch.owner != 0 {
        assert ConnInv(net, ch.owner);
      }
    }

    /** The listening socket is readable: accept a connection.  The kernel hands out only
        descriptors that are not in use; on an error nothing changes. */
    method Accept(r: Ready)
      requires Valid()
      modifies this`nextConnId, this`connections, this`all, this`channelMap, this`interest, this`net, this`log
      ensures Valid()
      ensures if r.accepted >= 0 && r.accepted !in old(channelMap)
        then
          && log == old(log) + AcceptReaction(r, old(nextConnId))
          && Now() == Entered(r, old(Now())) && channelMap.Keys == old(channelMap).Keys + {r.accepted}
          && all.Keys == old(all).Keys + {old(nextConnId)}
        else
          && log == old(log) && net == old(net) && Now() == old(Now())
          && channelMap == old(channelMap) && all == old(all)
      ensures old(all).Keys <= all.Keys && forall id :: id in old(all) ==> all[id] == old(all)[id]
      ensures forall id :: id in all && id !in old(all) ==> fresh(all[id]) && fresh(all[id].channel)
      ensures OnlyChanged(old(net), net, 0)
    {
      hide Inv, ListMatches, ConnsMatch, PollerMatches, StatesMatch, LogFits;
      if r.accepted >= 0 && r.accepted !in channelMap {
        NewConnection(r.accepted, r);
      }
    }

    /** Calls back a fired channel. */
    method HandleEvent(ch: Channel, r: Ready)
      requires Valid() && MayHandle(all, net, ch) && ch.events != NONE && r.fd == ch.fd
      modifies this, Conns(), ch`events
      ensures Valid() && batch == old(batch) && OnlyChanged(old(net), net, ch.owner)
      ensures var n := Notice(ch.owner, ch == acceptChannel, old(ch.events), r);
        log == old(log) + Reaction(n, old(Now())) && Now() == TablesAfter(n, old(Now()))
      ensures old(all).Keys <= all.Keys && forall id :: id in old(all) ==> all[id] == old(all)[id]
      ensures fresh(Conns() - old(Conns())) && fresh(Channels() - old(Channels()))
    {
      hide Inv, ListMatches, ConnsMatch, PollerMatches, StatesMatch, LogFits, Reaction, ConnReaction, AcceptReaction,
        TablesAfter, Entered, ConnAsks;
      OwnNames();
      KnownDescriptors();
      HandledLog(log, Notice(ch.owner, ch == acceptChannel, ch.events, r), Now());
      Note(Handle(ch.owner));
      if ch.owner != 0 {
        HandleConnEvent(all[ch.owner], r);
      } else if ch == acceptChannel && Has(ch.events, READ) {
        Accept(r);
      }
    }

    /** From the k-th on the fired channels still stand as they were when the poll returned. */
    ghost predicate NoticesOf(fired: seq<Channel>, reports: seq<Ready>, ns: seq<Notice>, k: nat)
      requires |fired| == |reports| == |ns|
      reads set ch | ch in fired
    {
      forall j :: k <= j < |fired| ==>
        reports[j].fd == fired[j].fd &&
        ns[j] == Notice(fired[j].owner, fired[j] == acceptChannel, fired[j].events, reports[j])
    }

    /** Calls back one fired channel, unless its events have been cleared; the later ones
        stay as they were. */
    method HandleNext(ch: Channel, fired: seq<Channel>, reports: seq<Ready>, ghost ns: seq<Notice>, k: nat)
      requires Valid() && |fired| == |reports| == |ns| && k < |fired| && ch == fired[k]
      requires FiredOk(all, net, fired, k) && NoticesOf(fired, reports, ns, k)
      modifies this, Conns(), ch`events
      ensures Valid() && batch == old(batch)
      ensures FiredOk(all, net, fired, k + 1) && NoticesOf(fired, reports, ns, k + 1)
      ensures log == old(log) + Reaction(ns[k], old(Now())) && Now() == TablesAfter(ns[k], old(Now()))
      ensures fresh(Conns() - old(Conns())) && fresh(Channels() - old(Channels()))
    {
      hide Inv, ListMatches, ConnsMatch, PollerMatches, StatesMatch, LogFits, Reaction, TablesAfter, FiredOk,
        MayHandle;
      NextFired(all, net, fired, k);
      NoReaction(ns[k], Now());
      if !ch.IsNonEvent() {
        ghost var all0, net0 := all, net;
        HandleEvent(ch, reports[k]);
        StillFired(all0, net0, all, net, fired, k);
      }
    }

    /** Calls back the fired channels in order.  None belongs to a connection that has been
        closed or destroyed, so what happens is what the channels' state at the start says. */
    method HandleFired(fired: seq<Channel>, reports: seq<Ready>, ghost ns: seq<Notice>)
      requires Valid() && |fired| == |reports| == |ns| && FiredOk(all, net, fired, 0)
      requires forall k :: 0 <= k < |fired| ==> Mine(fired[k])
      requires NoticesOf(fired, reports, ns, 0)
      modifies this, Conns(), Channels(), acceptChannel, wakeupChannel
      ensures Valid() && batch == old(batch)
      ensures log == old(log) + Reactions(ns, old(Now())) && Now() == TablesAfterAll(ns, old(Now()))
      ensures fresh(Conns() - old(Conns())) && fresh(Channels() - old(Channels()))
    {
      hide Inv, ListMatches, ConnsMatch, PollerMatches, StatesMatch, LogFits, Reaction, Reactions, TablesAfter,
        TablesAfterAll, FiredOk, NoticesOf;
      var k := 0;
      NothingLeft(log, ns, Now());
      while k < |fired|
        invariant 0 <= k <= |fired|
        invariant Valid() && batch == old(batch) && FiredOk(all, net, fired, k)
        invariant NoticesOf(fired, reports, ns, k)
        invariant log + Reactions(ns[k..], Now()) == old(log) + Reactions(ns, old(Now()))
        invariant TablesAfterAll(ns[k..], Now()) == TablesAfterAll(ns, old(Now()))
        invariant fresh(Conns() - old(Conns())) && fresh(Channels() - old(Channels()))
      {
        ReactionsStep(log, ns, k, Now());
        HandleNext(fired[k], fired, reports, ns, k);
        k := k + 1;
      }
      NothingLeft(log, ns, Now());
    }

    /** Runs the destructions queued so far.  Afterwards every connection that was closed is
        destroyed. */
    method DoPendingFunctors()
      requires Valid() && batch == []
      modifies this, Conns(), Channels()
      ensures Valid() && net.queue == [] && batch == []
      ensures log == old(log) + Destroys(old(net).queue) && Now() == AllGone(old(Now()), old(net).queue)
      ensures all == old(all)
    {
      hide Inv, ListMatches, ConnsMatch, PollerMatches, StatesMatch, LogFits, Destroys, Gone;
      assert batch + pending == pending;
      batch := pending;
      pending := [];
      assert batch + pending == batch;
      while batch != []
        invariant Valid() && pending == [] && all == old(all)
        invariant log + Destroys(batch) == old(log) + Destroys(old(net).queue)
        invariant AllGone(Now(), batch) == AllGone(old(Now()), old(net).queue)
        decreases |batch|
      {
        HeadExists();
        DestroysStep(log, batch);
        ConnectDestroyed(all[batch[0]]);
      }
      DestroysStep(log, batch);
    }

    lemma HeadExists()
      requires Valid() && batch != []
      ensures batch[0] in all && all[batch[0]].name == batch[0]
    {
      hide LogFits, StatesMatch, PollerMatches, ListMatches;
      assert (batch + pending)[0] == batch[0];
      assert net.queue[0] in net.conns;
    }

    /** One turn: poll, handle what fired, run the queued functors. */
    method Turn(oracle: seq<Ready>)
      requires Valid() && batch == [] && net.queue == []
      modifies this, wakeupChannel, acceptChannel, Conns(), Channels()
      ensures Valid() && batch == [] && net.queue == []
      ensures Fit(old(Now())) && Fit(Now())
      ensures log == old(log) + Round(old(Now()), oracle, acceptChannel.fd, Fixed())
      ensures Now() == TablesAfterRound(old(Now()), oracle, acceptChannel.fd, Fixed())
      ensures fresh(Conns() - old(Conns())) && fresh(Channels() - old(Channels()))
    {
      hide Inv, ListMatches, ConnsMatch, PollerMatches, StatesMatch, LogFits, Reported, Reactions, Round, Destroys,
        Stored, FiredOk, FiredBy, NoticesOf, Noticed, TablesAfterAll, AllGone;
      KnownDescriptors();
      ghost var t := Now();
      RoundIs(log, t, oracle, acceptChannel.fd, Fixed());
      var fired, reports := Poll(oracle);
      NoticesAre(fired, reports);
      AllMine(fired, reports);
      ghost var ns := Noticed(reports, net.known, acceptChannel.fd);
      HandleFired(fired, reports, ns);
      QueueIs(old(log), old(net), ns, t);
      DoPendingFunctors();
      Note(EndRound);
    }

    lemma QueueIs(log0: seq<Event>, net0: Net, ns: seq<Notice>, t: Tables)
      requires Valid() && LogFits(start, log0, net0) && net0.queue == [] && log == log0 + Reactions(ns, t)
      ensures net.queue == Closes(Reactions(ns, t))
    {
      hide LogFits, Reactions;
      ReactionsPlain(ns, t);
      ClosesQueue(start, log0, net0, Reactions(ns, t), net);
    }

    lemma AllMine(fired: seq<Channel>, reports: seq<Ready>)
      requires Stored(fired, reports)
      ensures forall k :: 0 <= k < |fired| ==> Mine(fired[k])
    {
    }

    lemma NoticesAre(fired: seq<Channel>, reports: seq<Ready>)
      requires Valid() && net.queue == [] && FiredBy(channelMap, fired, reports) && Stored(fired, reports)
      ensures forall k :: 0 <= k < |reports| ==> reports[k].fd in net.known
      ensures |fired| == |reports|
      ensures NoticesOf(fired, reports, Noticed(reports, net.known, acceptChannel.fd), 0)
    {
      hide Inv, ListMatches, ConnsMatch, PollerMatches, StatesMatch, LogFits;
      forall k | 0 <= k < |reports|
        ensures reports[k].fd in net.known
        ensures fired[k].owner == net.known[reports[k].fd] && reports[k].fd == fired[k].fd
        ensures fired[k] == acceptChannel <==> reports[k].fd == acceptChannel.fd
      {
        KnownMayBeHandled(reports[k].fd);
      }
    }

    /** The loop, for as many turns as there are oracles: what happens is round after round,
        each decided by its oracle and the tables the round before has left.  The log of all
        turns ever is orderly, and every connection ever closed has been destroyed. */
    method Loop(oracles: seq<seq<Ready>>)
      requires Valid() && batch == [] && net.queue == []
      modifies this, wakeupChannel, acceptChannel, Conns(), Channels()
      ensures Valid() && batch == [] && net.queue == []
      ensures Fit(old(Now())) && log == old(log) + AllRounds(old(Now()), oracles, acceptChannel.fd, Fixed())
      ensures Orderly(log) && forall id :: ClosedIn(log, id) <==> DestroyedIn(log, id)
      ensures fresh(Conns() - old(Conns())) && fresh(Channels() - old(Channels()))
    {
      hide Inv, ListMatches, ConnsMatch, PollerMatches, StatesMatch, LogFits, Orderly, ClosedIn, DestroyedIn, Round,
        AllRounds, TablesAfterRound;
      var i := 0;
      KnownDescriptors();
      NoRoundLeft(log, Now(), oracles, acceptChannel.fd, Fixed());
      while i < |oracles|
        invariant 0 <= i <= |oracles|
        invariant Valid() && batch == [] && net.queue == [] && Fit(Now())
        invariant log + AllRounds(Now(), oracles[i..], acceptChannel.fd, Fixed()) ==
          old(log) + AllRounds(old(Now()), oracles, acceptChannel.fd, Fixed())
        invariant fresh(Conns() - old(Conns())) && fresh(Channels() - old(Channels()))
      {
        RoundsStep(log, Now(), oracles, i, acceptChannel.fd, Fixed());
        Turn(oracles[i]);
        i := i + 1;
      }
      NoRoundLeft(log, Now(), oracles, acceptChannel.fd, Fixed());
      AllOrderly();
    }

    lemma AllOrderly()
      requires Valid() && net.queue == []
      ensures Orderly(log) && forall id :: ClosedIn(log, id) <==> DestroyedIn(log, id)
    {
      hide ListMatches, ConnsMatch, PollerMatches, StatesMatch, Inv, Orderly, ClosedIn, DestroyedIn, RunAll,
        PossibleAll;
      RunsAreOrderly(start, log);
      forall id ensures ClosedIn(log, id) <==> DestroyedIn(log, id) {
        ClosedIsDestroyed(start, log, id);
      }
    }
  }

  /** From one value to the next connections may have been added, none but this one has
      changed, and the queue has only grown. */
  ghost predicate OnlyChanged(before: Net, after: Net, id: nat) {
    && before.conns.Keys <= after.conns.Keys
    && (forall x :: x in before.conns && x != id ==> after.conns[x] == before.conns[x])
    && before.queue <= after.queue
  }

  lemma OnlyOpened(net: Net, fd: nat)
    requires net.nextId !in net.conns
    ensures OnlyChanged(net, Opened(net, fd), 0)
    ensures OnlyChanged(net, ShutDown(Opened(net, fd), net.nextId), 0)
  {
  }
}
