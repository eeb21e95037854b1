/** One round of a single-loop server as a value: what the poll reports, and what handling
    the fired channels does, event by event. */
module ServerRounds {
  import opened ConnLifecycle

  const NONE: bv32 := 0
  const READ: bv32 := 0x001    // EPOLLIN
  const WRITE: bv32 := 0x004   // EPOLLOUT
  const ERROR: bv32 := 0x018   // EPOLLERR | EPOLLHUP

  /** One report of the kernel: a descriptor and its events, and what the system calls and
      user callbacks made in answer do. */
  datatype Ready = Ready(
    fd: nat,
    events: bv32,
    accepted: int,      // accept: a descriptor, or negative
    greetShuts: bool,   // the connection callback of an accepted connection calls shutdown
    greetSends: bool,   // ... and leaves output to be written later
    readCount: int,     // read: bytes, 0 at the end, negative on an error
    shuts: bool,        // the message callback calls shutdown
    sends: bool,        // the message callback leaves output to be written later
    drained: bool)      // the rest of the output could be written

  /** The events a report may carry: those asked for, and errors and hang-ups, which the
      two fixed descriptors never have. */
  function Allowed(r: Ready, interest: map<nat, bv32>, fixed: set<nat>): bv32 {
    if r.fd !in interest then NONE else Masked(r.events, interest[r.fd], r.fd in fixed)
  }

  function Masked(events: bv32, asked: bv32, fixed: bool): bv32 {
    events & (asked | if fixed then NONE else ERROR)
  }

  function WithEvents(r: Ready, events: bv32): (s: Ready)
    ensures s.fd == r.fd && s.events == events
  {
    r.(events := events)
  }

  predicate Mentioned(reports: seq<Ready>, fd: nat) {
    exists k :: 0 <= k < |reports| && reports[k].fd == fd
  }

  /** One more report of an oracle's: taken, with its allowed events, or left out. */
  function Listed(reports: seq<Ready>, r: Ready, interest: map<nat, bv32>, fixed: set<nat>): seq<Ready> {
    var events := Allowed(r, interest, fixed);
    if events == NONE || Mentioned(reports, r.fd) then reports else reports + [WithEvents(r, events)]
  }

  /** What epoll_wait makes of anything an oracle says: each known descriptor at most once,
      with allowed events only. */
  function Reported(oracle: seq<Ready>, interest: map<nat, bv32>, fixed: set<nat>): (reports: seq<Ready>)
    ensures forall k :: 0 <= k < |reports| ==> reports[k].fd in interest && reports[k].events != NONE
    ensures forall j, k :: 0 <= j < k < |reports| ==> reports[j].fd != reports[k].fd
  {
    if oracle == [] then []
    else Listed(Reported(oracle[..|oracle|-1], interest, fixed), oracle[|oracle|-1], interest, fixed)
  }

  lemma ListedIs(reports: seq<Ready>, r: Ready, interest: map<nat, bv32>, fixed: set<nat>)
    ensures Allowed(r, interest, fixed) == NONE || Mentioned(reports, r.fd) ==>
      Listed(reports, r, interest, fixed) == reports
    ensures Allowed(r, interest, fixed) != NONE && !Mentioned(reports, r.fd) ==>
      Listed(reports, r, interest, fixed) == reports + [WithEvents(r, Allowed(r, interest, fixed))]
  {
  }

  lemma AllowedIs(r: Ready, interest: map<nat, bv32>, fixed: set<nat>)
    ensures Allowed(r, interest, fixed) ==
      if r.fd in interest then Masked(r.events, interest[r.fd], r.fd in fixed) else NONE
  {
  }

  lemma ReportedStep(oracle: seq<Ready>, i: nat, interest: map<nat, bv32>, fixed: set<nat>)
    requires i < |oracle|
    ensures Reported(oracle[..i + 1], interest, fixed) ==
      Listed(Reported(oracle[..i], interest, fixed), oracle[i], interest, fixed)
  {
    assert oracle[..i + 1][..i] == oracle[..i];
  }

  lemma AllReported(oracle: seq<Ready>, interest: map<nat, bv32>, fixed: set<nat>)
    ensures Reported(oracle[..0], interest, fixed) == [] && oracle[..|oracle|] == oracle
  {
  }

  /** A fired channel as it stands before it is handled: whose it is, 0 for the two fixed ones. */
  datatype Notice = Notice(owner: nat, accepting: bool, events: bv32, r: Ready)

  function Noticed(reports: seq<Ready>, known: map<nat, nat>, acceptFd: nat): (ns: seq<Notice>)
    requires forall k :: 0 <= k < |reports| ==> reports[k].fd in known
    ensures |ns| == |reports|
  {
    seq(|reports|, k requires 0 <= k < |reports| =>
      Notice(known[reports[k].fd], reports[k].fd == acceptFd, reports[k].events, reports[k]))
  }

  function ReadReaction(id: nat, r: Ready): seq<Event> {
    [Read(id)] +
    (if r.readCount == 0 then [Close(id)] else if r.readCount > 0 && r.shuts then [Shut(id)] else [])
  }

  predicate Has(events: bv32, flag: bv32) { Shared(events, flag) != NONE }

  function Shared(a: bv32, b: bv32): bv32 { a & b }

  lemma NoneHas()
    ensures !Has(NONE, READ) && !Has(NONE, WRITE) && !Has(NONE, ERROR)
  {
  }

  /** The events a channel stands at when the read callback has returned. */
  function ReadLeaves(events: bv32, r: Ready): bv32 {
    if r.readCount < 0 then events
    else if r.readCount == 0 then NONE
    else if r.sends then With(events, WRITE) else events
  }

  lemma EndsAtClose(r: Ready, events: bv32)
    ensures r.readCount == 0 ==> ReadLeaves(events, r) == NONE
  {
  }

  function AfterRead(events: bv32, r: Ready): bv32 {
    if Has(events, READ) then ReadLeaves(events, r) else events
  }

  function With(events: bv32, flag: bv32): bv32 { events | flag }

  function Without(events: bv32, flag: bv32): bv32 { events & !flag }

  lemma NotAsked(events: bv32)
    ensures !Has(events, WRITE) ==> Without(events, WRITE) == events
    ensures Has(events, WRITE) ==> With(events, WRITE) == events
  {
  }

  /** The callbacks of a connection's channel: after a close there are none. */
  function ConnReaction(id: nat, events: bv32, r: Ready): seq<Event> {
    if Has(events, ERROR) then [Close(id)]
    else
      (if Has(events, READ) then ReadReaction(id, r) else []) +
      (if Has(AfterRead(events, r), WRITE) then [Write(id)] else [])
  }

  lemma ConnLog(log: seq<Event>, id: nat, events: bv32, r: Ready)
    ensures Has(events, ERROR) ==> log + ConnReaction(id, events, r) == log + [Close(id)]
    ensures !Has(events, ERROR) ==>
      var read := if Has(events, READ) then log + ReadReaction(id, r) else log;
      log + ConnReaction(id, events, r) == if Has(AfterRead(events, r), WRITE) then read + [Write(id)] else read
  {
    hide Has, ReadReaction, AfterRead;
  }

  // ----- The tables a round starts from and leaves -----

  /** The events the kernel has been asked for, whose each known descriptor is, and the next
      name. */
  datatype Tables = Tables(interest: map<nat, bv32>, known: map<nat, nat>, next: nat)

  predicate Fit(t: Tables) { t.interest.Keys == t.known.Keys }

  /** What the kernel is asked for after a read callback, and after all callbacks. */
  function ReadAsks(asked: bv32, events: bv32, r: Ready): bv32 {
    if r.readCount == 0 then NONE
    else if r.readCount > 0 && r.sends && !Has(events, WRITE) then With(events, WRITE) else asked
  }

  function WriteAsks(asked: bv32, events: bv32, r: Ready): bv32 {
    if Has(events, WRITE) && r.drained then Without(events, WRITE) else asked
  }

  function ConnAsks(asked: bv32, events: bv32, r: Ready): bv32 {
    if Has(events, ERROR) then NONE
    else WriteAsks(if Has(events, READ) then ReadAsks(asked, events, r) else asked, AfterRead(events, r), r)
  }

  function GreetAsks(r: Ready): bv32 {
    if r.greetSends then With(With(NONE, READ), WRITE) else With(NONE, READ)
  }

  lemma ConnAsksIs(asked: bv32, events: bv32, r: Ready)
    ensures Has(events, ERROR) ==> ConnAsks(asked, events, r) == NONE
    ensures AfterRead(events, r) == if Has(events, READ) then ReadLeaves(events, r) else events
    ensures !Has(events, ERROR) && Has(events, READ) ==>
      ConnAsks(asked, events, r) == WriteAsks(ReadAsks(asked, events, r), ReadLeaves(events, r), r)
    ensures !Has(events, ERROR) && !Has(events, READ) ==> ConnAsks(asked, events, r) == WriteAsks(asked, events, r)
    ensures forall a: bv32, e: bv32 :: !Has(e, WRITE) ==> WriteAsks(a, e, r) == a
  {
    hide Has, Without, ReadAsks, ReadLeaves;
  }

  lemma AskedTwice(m: map<nat, bv32>, fd: nat, a: bv32, b: bv32)
    requires fd in m
    ensures m[fd := m[fd]] == m && m[fd := a][fd := b] == m[fd := b]
  {
  }

  predicate Accepts(n: Notice, t: Tables) {
    n.owner == 0 && n.accepting && Has(n.events, READ) && n.r.accepted >= 0 && n.r.accepted !in t.known
  }

  /** What handling a fired channel does. */
  function Reaction(n: Notice, t: Tables): seq<Event> {
    if n.events == NONE then []
    else if n.owner != 0 then [Handle(n.owner)] + ConnReaction(n.owner, n.events, n.r)
    else if Accepts(n, t) then [Handle(0)] + AcceptReaction(n.r, t.next)
    else [Handle(0)]
  }

  /** A connection enters, and its connection callback is called. */
  function AcceptReaction(r: Ready, next: nat): seq<Event>
    requires r.accepted >= 0
  {
    [Accept(r.accepted)] + if r.greetShuts then [Shut(next)] else []
  }

  function TablesAfter(n: Notice, t: Tables): (u: Tables)
    ensures Fit(t) ==> Fit(u)
  {
    if n.events == NONE then t
    else if n.owner != 0 then
      if n.r.fd in t.interest
      then t.(interest := t.interest[n.r.fd := ConnAsks(t.interest[n.r.fd], n.events, n.r)])
      else t
    else if Accepts(n, t) then Entered(n.r, t)
    else t
  }

  function Entered(r: Ready, t: Tables): (u: Tables)
    requires r.accepted >= 0
    ensures Fit(t) ==> Fit(u)
  {
    Tables(t.interest[r.accepted := GreetAsks(r)], t.known[r.accepted := t.next], t.next + 1)
  }

  lemma HandledLog(log: seq<Event>, n: Notice, t: Tables)
    requires n.events != NONE
    ensures n.owner != 0 ==>
      log + [Handle(n.owner)] + ConnReaction(n.owner, n.events, n.r) == log + Reaction(n, t)
    ensures n.owner != 0 && n.r.fd in t.interest ==>
      TablesAfter(n, t) == t.(interest := t.interest[n.r.fd := ConnAsks(t.interest[n.r.fd], n.events, n.r)])
    ensures Accepts(n, t) ==>
      log + [Handle(0)] + AcceptReaction(n.r, t.next) == log + Reaction(n, t) && TablesAfter(n, t) == Entered(n.r, t)
    ensures n.owner == 0 && !Accepts(n, t) ==> log + [Handle(0)] == log + Reaction(n, t) && TablesAfter(n, t) == t
  {
  }

  /** Handling the fired channels in order. */
  function Reactions(ns: seq<Notice>, t: Tables): seq<Event> {
    if ns == [] then [] else Reaction(ns[0], t) + Reactions(ns[1..], TablesAfter(ns[0], t))
  }

  function TablesAfterAll(ns: seq<Notice>, t: Tables): (u: Tables)
    ensures Fit(t) ==> Fit(u)
  {
    if ns == [] then t else TablesAfterAll(ns[1..], TablesAfter(ns[0], t))
  }

  lemma ReactionsStep(log: seq<Event>, ns: seq<Notice>, k: nat, t: Tables)
    requires k < |ns|
    ensures log + Reactions(ns[k..], t) == log + Reaction(ns[k], t) + Reactions(ns[k + 1..], TablesAfter(ns[k], t))
    ensures TablesAfterAll(ns[k..], t) == TablesAfterAll(ns[k + 1..], TablesAfter(ns[k], t))
  {
    hide Reaction, TablesAfter;
    assert ns[k..][1..] == ns[k + 1..];
    assert ns[k..][0] == ns[k];
    var first, rest := Reaction(ns[k], t), Reactions(ns[k + 1..], TablesAfter(ns[k], t));
    assert log + (first + rest) == log + first + rest;
  }

  lemma NoReaction(n: Notice, t: Tables)
    ensures n.events == NONE ==> Reaction(n, t) == [] && TablesAfter(n, t) == t
  {
  }

  lemma NothingLeft(log: seq<Event>, ns: seq<Notice>, t: Tables)
    ensures ns[0..] == ns && log + Reactions(ns[|ns|..], t) == log && TablesAfterAll(ns[|ns|..], t) == t
  {
  }

  /** Handling destroys nothing and ends no round. */
  lemma {:induction false} ReactionsPlain(ns: seq<Notice>, t: Tables)
    ensures forall k :: 0 <= k < |Reactions(ns, t)| ==>
      !Reactions(ns, t)[k].Destroy? && !Reactions(ns, t)[k].EndRound?
  {
    hide TablesAfter, Reaction;
    if ns != [] {
      ReactionPlain(ns[0], t);
      ReactionsPlain(ns[1..], TablesAfter(ns[0], t));
    }
  }

  lemma ReactionPlain(n: Notice, t: Tables)
    ensures forall k :: 0 <= k < |Reaction(n, t)| ==> !Reaction(n, t)[k].Destroy? && !Reaction(n, t)[k].EndRound?
  {
    hide Has, AfterRead;
  }

  /** A connection has left the poller. */
  function Gone(t: Tables, id: nat): (u: Tables)
    ensures Fit(t) ==> Fit(u)
  {
    var fds := set fd | fd in t.known && t.known[fd] == id;
    Tables(t.interest - fds, t.known - fds, t.next)
  }

  function AllGone(t: Tables, ids: seq<nat>): (u: Tables)
    ensures Fit(t) ==> Fit(u)
    decreases |ids|
  {
    if ids == [] then t else AllGone(Gone(t, ids[0]), ids[1..])
  }

  /** The fired channels of a round. */
  function Fires(t: Tables, oracle: seq<Ready>, acceptFd: nat, fixed: set<nat>): seq<Notice>
    requires Fit(t)
  {
    Noticed(Reported(oracle, t.interest, fixed), t.known, acceptFd)
  }

  /** A whole round: the poll, the fired channels, and the destructions they queued. */
  function Round(t: Tables, oracle: seq<Ready>, acceptFd: nat, fixed: set<nat>): seq<Event>
    requires Fit(t)
  {
    var es := Reactions(Fires(t, oracle, acceptFd, fixed), t);
    es + Destroys(Closes(es)) + [EndRound]
  }

  function TablesAfterRound(t: Tables, oracle: seq<Ready>, acceptFd: nat, fixed: set<nat>): (u: Tables)
    requires Fit(t)
    ensures Fit(u)
  {
    var ns := Fires(t, oracle, acceptFd, fixed);
    AllGone(TablesAfterAll(ns, t), Closes(Reactions(ns, t)))
  }

  /** Any number of rounds, each from the tables the one before has left. */
  function AllRounds(t: Tables, oracles: seq<seq<Ready>>, acceptFd: nat, fixed: set<nat>): seq<Event>
    requires Fit(t)
    decreases |oracles|
  {
    if oracles == [] then []
    else Round(t, oracles[0], acceptFd, fixed) +
         AllRounds(TablesAfterRound(t, oracles[0], acceptFd, fixed), oracles[1..], acceptFd, fixed)
  }

  lemma RoundIs(log: seq<Event>, t: Tables, oracle: seq<Ready>, acceptFd: nat, fixed: set<nat>)
    requires Fit(t)
    ensures var es := Reactions(Fires(t, oracle, acceptFd, fixed), t);
      log + es + Destroys(Closes(es)) + [EndRound] == log + Round(t, oracle, acceptFd, fixed)
  {
    hide Reactions, Fires, Destroys, Closes;
  }

  lemma RoundsStep(log: seq<Event>, t: Tables, oracles: seq<seq<Ready>>, i: nat, acceptFd: nat, fixed: set<nat>)
    requires Fit(t) && i < |oracles|
    ensures log + AllRounds(t, oracles[i..], acceptFd, fixed) ==
      log + Round(t, oracles[i], acceptFd, fixed) +
      AllRounds(TablesAfterRound(t, oracles[i], acceptFd, fixed), oracles[i + 1..], acceptFd, fixed)
  {
    hide Round, TablesAfterRound;
    assert oracles[i..][1..] == oracles[i + 1..] && oracles[i..][0] == oracles[i];
    var first := Round(t, oracles[i], acceptFd, fixed);
    var rest := AllRounds(TablesAfterRound(t, oracles[i], acceptFd, fixed), oracles[i + 1..], acceptFd, fixed);
    assert log + (first + rest) == log + first + rest;
  }

  lemma NoRoundLeft(log: seq<Event>, t: Tables, oracles: seq<seq<Ready>>, acceptFd: nat, fixed: set<nat>)
    requires Fit(t)
    ensures oracles[0..] == oracles && log + AllRounds(t, oracles[|oracles|..], acceptFd, fixed) == log
  {
  }

  /** Of the callbacks of one channel a close is the last. */
  lemma CloseIsLast(id: nat, events: bv32, r: Ready, k: nat)
    requires k < |ConnReaction(id, events, r)| && ConnReaction(id, events, r)[k].Close?
    ensures k == |ConnReaction(id, events, r)| - 1
  {
  }

  // ----- What the events mean, flag by flag -----

  lemma EpollFlags(events: bv32)
    ensures Has(events, READ) <==> events & 0x001 != 0
    ensures Has(events, WRITE) <==> events & 0x004 != 0
    ensures Has(events, ERROR) <==> events & 0x008 != 0 || events & 0x010 != 0
  {
  }

  /** Asking for more keeps what was asked for. */
  lemma WithFlags(events: bv32, flag: bv32, g: bv32)
    ensures Has(With(events, flag), g) <==> Has(events, g) || Has(flag, g)
  {
    hide Shared, With;
    SharedWith(events, flag, g);
    WithNothing(Shared(events, g), Shared(flag, g));
  }

  lemma WithEach(events: bv32, flag: bv32)
    ensures forall g :: Has(With(events, flag), g) <==> Has(events, g) || Has(flag, g)
  {
    hide Has, With;
    forall g ensures Has(With(events, flag), g) <==> Has(events, g) || Has(flag, g) {
      WithFlags(events, flag, g);
    }
  }

  lemma SharedWith(events: bv32, flag: bv32, g: bv32)
    ensures Shared(With(events, flag), g) == With(Shared(events, g), Shared(flag, g))
  {
  }

  lemma WithNothing(a: bv32, b: bv32)
    ensures With(a, b) == NONE <==> a == NONE && b == NONE
  {
  }

  lemma WithoutFlags(events: bv32, flag: bv32, g: bv32)
    ensures !Has(Without(events, flag), flag)
    ensures !Has(flag, g) ==> (Has(Without(events, flag), g) <==> Has(events, g))
  {
  }

  /** A report shows reading and writing as far as they were asked for, and errors always,
      except on the two fixed descriptors. */
  lemma MaskedFlags(events: bv32, asked: bv32, fixed: bool)
    ensures Has(Masked(events, asked, fixed), READ) <==> Has(events, READ) && Has(asked, READ)
    ensures Has(Masked(events, asked, fixed), WRITE) <==> Has(events, WRITE) && Has(asked, WRITE)
    ensures !fixed ==> (Has(Masked(events, asked, fixed), ERROR) <==> Has(events, ERROR))
    ensures fixed && !Has(asked, ERROR) ==> !Has(Masked(events, asked, fixed), ERROR)
  {
  }

  /** What the kernel is asked for after the callbacks of a connection: nothing after a
      close; after a read that leaves output, everything reported, and writing unless that
      output could be written at once; and what stood before when no callback asks, or when
      writing was among what was reported. */
  lemma ConnAsksFlags(asked: bv32, events: bv32, r: Ready, g: bv32)
    ensures Has(events, ERROR) || (Has(events, READ) && r.readCount == 0) ==> ConnAsks(asked, events, r) == NONE
    ensures !Has(events, ERROR) && Has(events, READ) && r.readCount > 0 && r.sends && !r.drained ==>
      if Has(events, WRITE) then ConnAsks(asked, events, r) == asked
      else Has(ConnAsks(asked, events, r), g) <==> Has(events, g) || Has(WRITE, g)
    ensures !Has(events, ERROR) && Has(events, READ) && r.readCount > 0 && r.sends && r.drained ==>
      Has(ConnAsks(asked, events, r), READ) && !Has(ConnAsks(asked, events, r), WRITE)
    ensures !Has(events, ERROR) && !Has(events, WRITE) && !Has(events, READ) ==> ConnAsks(asked, events, r) == asked
    ensures !Has(events, ERROR) && !Has(events, WRITE) && (r.readCount < 0 || (r.readCount > 0 && !r.sends)) ==>
      ConnAsks(asked, events, r) == asked
  {
    hide Has, With, Without;
    NoneHas();
    ReadAlone();
    WithFlags(events, WRITE, g);
    WithFlags(events, WRITE, READ);
    WithFlags(events, WRITE, WRITE);
    WithoutFlags(With(events, WRITE), WRITE, READ);
  }

  lemma ConnKeepsAsking(asked: bv32, events: bv32, r: Ready)
    requires !Has(events, ERROR) && Has(events, READ) && !Has(events, WRITE)
    requires r.readCount > 0 && r.sends && !r.drained
    ensures forall g :: Has(ConnAsks(asked, events, r), g) <==> Has(events, g) || Has(WRITE, g)
  {
    hide Has, ConnAsks;
    forall g ensures Has(ConnAsks(asked, events, r), g) <==> Has(events, g) || Has(WRITE, g) {
      ConnAsksFlags(asked, events, r, g);
    }
  }

  lemma ReadAlone()
    ensures Has(READ, READ) && Has(WRITE, WRITE) && !Has(READ, WRITE) && !Has(WRITE, READ)
  {
  }

  /** A new connection is asked to read, and to write if its callback left output. */
  lemma EnteredAsks(r: Ready, t: Tables)
    requires r.accepted >= 0
    ensures var u := Entered(r, t);
      && r.accepted in u.interest && r.accepted in u.known && u.known[r.accepted] == t.next && u.next == t.next + 1
      && Has(u.interest[r.accepted], READ) && (Has(u.interest[r.accepted], WRITE) <==> r.greetSends)
      && (forall fd :: fd != r.accepted ==> (fd in u.interest <==> fd in t.interest))
      && (forall fd :: fd != r.accepted ==> (fd in u.known <==> fd in t.known))
      && (forall fd :: fd != r.accepted && fd in t.interest ==> u.interest[fd] == t.interest[fd])
      && (forall fd :: fd != r.accepted && fd in t.known ==> u.known[fd] == t.known[fd])
  {
    GreetFlags(r);
  }

  lemma GreetFlags(r: Ready)
    ensures Has(GreetAsks(r), READ) && (Has(GreetAsks(r), WRITE) <==> r.greetSends)
  {
    hide Has, With;
    NoneHas();
    ReadAlone();
    WithFlags(NONE, READ, READ);
    WithFlags(NONE, READ, WRITE);
    WithFlags(With(NONE, READ), WRITE, READ);
    WithFlags(With(NONE, READ), WRITE, WRITE);
  }

  lemma GoneIff(t: Tables, id: nat, fd: nat)
    ensures fd in Gone(t, id).known <==> fd in t.known && t.known[fd] != id
    ensures Fit(t) ==> (fd in Gone(t, id).interest <==> fd in t.known && t.known[fd] != id)
    ensures fd in Gone(t, id).known ==> Gone(t, id).known[fd] == t.known[fd]
  {
  }

  // ----- What a round holds -----

  /** Which callbacks are called: close on an error; else read when there is something to
      read, close when that was the end, and write when writing is possible or asked for by
      the read callback. */
  lemma CallbacksIff(id: nat, events: bv32, r: Ready)
    ensures Close(id) in ConnReaction(id, events, r) <==> Has(events, ERROR) || (Has(events, READ) && r.readCount == 0)
    ensures Read(id) in ConnReaction(id, events, r) <==> !Has(events, ERROR) && Has(events, READ)
    ensures Shut(id) in ConnReaction(id, events, r) <==>
      !Has(events, ERROR) && Has(events, READ) && r.readCount > 0 && r.shuts
    ensures Write(id) in ConnReaction(id, events, r) <==>
      && !Has(events, ERROR) && !(Has(events, READ) && r.readCount == 0)
      && (Has(events, WRITE) || (Has(events, READ) && r.readCount > 0 && r.sends))
  {
    hide Has, With;
    NoneHas();
    ReadAlone();
    WithFlags(events, WRITE, WRITE);
  }

  /** In which order: reading comes first and is at once followed by what its callback
      does, and writing comes last. */
  lemma CallbackOrder(id: nat, events: bv32, r: Ready)
    ensures var es := ConnReaction(id, events, r);
      && (Read(id) in es ==> es[0] == Read(id))
      && (Shut(id) in es ==> |es| >= 2 && es[1] == Shut(id))
      && (Write(id) in es ==> es[|es| - 1] == Write(id))
      && |es| <= 3 && forall j, k :: 0 <= j < k < |es| ==> es[j] != es[k]
  {
    hide Has, With;
  }

  /** Exactly a readable listening socket with a descriptor not yet known brings a
      connection. */
  lemma AcceptsIff(n: Notice, t: Tables, fd: nat)
    ensures Accept(fd) in Reaction(n, t) <==>
      n.owner == 0 && n.accepting && Has(n.events, READ) && n.r.accepted == fd && fd !in t.known
    ensures n.owner == 0 && n.r.accepted == fd ==> forall id ::
      Shut(id) in Reaction(n, t) <==> Accept(fd) in Reaction(n, t) && n.r.greetShuts && id == t.next
  {
    hide Has;
    NoneHas();
  }

  /** The first report of the oracle's that says something allowed about its descriptor. */
  predicate FirstReport(oracle: seq<Ready>, interest: map<nat, bv32>, fixed: set<nat>, i: nat) {
    && i < |oracle| && Allowed(oracle[i], interest, fixed) != NONE
    && forall j :: 0 <= j < i && oracle[j].fd == oracle[i].fd ==> Allowed(oracle[j], interest, fixed) == NONE
  }

  /** What the poll makes of a report: the same, cut down to the events allowed. */
  predicate IsReport(report: Ready, r: Ready, interest: map<nat, bv32>, fixed: set<nat>) {
    report == WithEvents(r, Allowed(r, interest, fixed))
  }

  /** The poll reports exactly those, with the allowed events. */
  lemma {:induction false} ReportedIff(oracle: seq<Ready>, interest: map<nat, bv32>, fixed: set<nat>, r: Ready)
    ensures r in Reported(oracle, interest, fixed) <==>
      exists i: nat :: FirstReport(oracle, interest, fixed, i) && IsReport(r, oracle[i], interest, fixed)
    decreases |oracle|
  {
    hide Allowed, WithEvents, FirstReport, Reported, IsReport;
    if oracle == [] {
      NoFirstReport(interest, fixed);
    } else {
      var before, last := oracle[..|oracle|-1], |oracle| - 1;
      ReportedIff(before, interest, fixed, r);
      FirstReportBefore(oracle, interest, fixed);
      LastReport(oracle, interest, fixed, r);
      if r in Reported(before, interest, fixed) {
        var i: nat :| FirstReport(before, interest, fixed, i) && IsReport(r, before[i], interest, fixed);
        assert FirstReport(oracle, interest, fixed, i) && before[i] == oracle[i];
      }
      if i: nat :| FirstReport(oracle, interest, fixed, i) && IsReport(r, oracle[i], interest, fixed) {
        assert i < last ==> FirstReport(before, interest, fixed, i) && before[i] == oracle[i];
      }
    }
  }

  lemma NoFirstReport(interest: map<nat, bv32>, fixed: set<nat>)
    ensures Reported([], interest, fixed) == [] && forall i: nat :: !FirstReport([], interest, fixed, i)
  {
  }

  /** The last of the oracle's reports is taken exactly when it is the first of its kind. */
  lemma LastReport(oracle: seq<Ready>, interest: map<nat, bv32>, fixed: set<nat>, r: Ready)
    requires oracle != []
    ensures var last := |oracle| - 1;
      r in Reported(oracle, interest, fixed) <==>
        || r in Reported(oracle[..last], interest, fixed)
        || (FirstReport(oracle, interest, fixed, last) && IsReport(r, oracle[last], interest, fixed))
  {
    hide Allowed, WithEvents, Reported;
    var last := |oracle| - 1;
    MentionedIff(oracle[..last], oracle[last].fd, interest, fixed);
    ReportedStep(oracle, last, interest, fixed);
    assert oracle[..last + 1] == oracle;
    assert forall i :: 0 <= i < last ==> oracle[..last][i] == oracle[i];
  }

  lemma FirstReportBefore(oracle: seq<Ready>, interest: map<nat, bv32>, fixed: set<nat>)
    requires oracle != []
    ensures forall i: nat :: i < |oracle| - 1 ==>
      (FirstReport(oracle, interest, fixed, i) <==> FirstReport(oracle[..|oracle|-1], interest, fixed, i))
    ensures forall i: nat :: FirstReport(oracle, interest, fixed, i) ==> i < |oracle|
    ensures var before := oracle[..|oracle|-1];
      forall i: nat :: FirstReport(before, interest, fixed, i) ==> i < |before|
  {
    hide Allowed;
  }

  lemma {:induction false} MentionedIff(oracle: seq<Ready>, fd: nat, interest: map<nat, bv32>, fixed: set<nat>)
    ensures Mentioned(Reported(oracle, interest, fixed), fd) <==>
      exists i :: 0 <= i < |oracle| && oracle[i].fd == fd && Allowed(oracle[i], interest, fixed) != NONE
    decreases |oracle|
  {
    hide Allowed, WithEvents;
    if oracle != [] {
      var last := |oracle| - 1;
      MentionedIff(oracle[..last], fd, interest, fixed);
      ReportedStep(oracle, last, interest, fixed);
      assert oracle[..last + 1] == oracle;
      var before := Reported(oracle[..last], interest, fixed);
      var report := WithEvents(oracle[last], Allowed(oracle[last], interest, fixed));
      assert Mentioned(before + [report], fd) <==> Mentioned(before, fd) || oracle[last].fd == fd by {
        assert (before + [report])[|before|] == report;
        assert forall k :: 0 <= k < |before| ==> (before + [report])[k] == before[k];
      }
      assert forall i :: 0 <= i < last ==> oracle[..last][i] == oracle[i];
    }
  }

  /** The channels handled by some events, and those that fired, by their owners, in order. */
  function Handled(es: seq<Event>): seq<nat> {
    if es == [] then [] else HandledBy(es[0]) + Handled(es[1..])
  }

  function HandledBy(e: Event): seq<nat> { if e.Handle? then [e.id] else [] }

  lemma {:induction false} HandledJoins(a: seq<Event>, b: seq<Event>)
    ensures Handled(a + b) == Handled(a) + Handled(b)
  {
    hide HandledBy;
    if a == [] {
      assert a + b == b;
    } else {
      assert (a + b)[1..] == a[1..] + b;
      HandledJoins(a[1..], b);
    }
  }

  lemma {:induction false} NoneHandled(es: seq<Event>)
    requires forall k :: 0 <= k < |es| ==> !es[k].Handle?
    ensures Handled(es) == []
  {
    if es != [] {
      NoneHandled(es[1..]);
    }
  }

  lemma ReactionHandles(n: Notice, t: Tables)
    ensures Handled(Reaction(n, t)) == if n.events == NONE then [] else [n.owner]
  {
    hide Has, AfterRead;
    if n.events != NONE {
      var es := Reaction(n, t);
      assert es[0] == Handle(n.owner);
      NoneHandled(es[1..]);
    }
  }

  lemma {:induction false} ReactionsHandle(ns: seq<Notice>, t: Tables)
    requires forall k :: 0 <= k < |ns| ==> ns[k].events != NONE
    ensures |Handled(Reactions(ns, t))| == |ns|
    ensures forall k :: 0 <= k < |ns| ==> Handled(Reactions(ns, t))[k] == ns[k].owner
  {
    hide Reaction, TablesAfter;
    if ns != [] {
      ReactionHandles(ns[0], t);
      ReactionsHandle(ns[1..], TablesAfter(ns[0], t));
      HandledJoins(Reaction(ns[0], t), Reactions(ns[1..], TablesAfter(ns[0], t)));
    }
  }

  /** A round handles exactly the channels of the reported descriptors, in that order. */
  lemma RoundHandles(t: Tables, oracle: seq<Ready>, acceptFd: nat, fixed: set<nat>)
    requires Fit(t)
    ensures var reports, handled := Reported(oracle, t.interest, fixed), Handled(Round(t, oracle, acceptFd, fixed));
      |handled| == |reports| &&
      forall k :: 0 <= k < |reports| ==> reports[k].fd in t.known && handled[k] == t.known[reports[k].fd]
  {
    hide Reported, Reactions;
    var ns := Fires(t, oracle, acceptFd, fixed);
    var es := Reactions(ns, t);
    var rest := Destroys(Closes(es)) + [EndRound];
    ReactionsHandle(ns, t);
    NoneHandled(rest);
    HandledJoins(es, rest);
    assert es + Destroys(Closes(es)) + [EndRound] == es + rest;
  }

  function RoundsIn(es: seq<Event>): nat {
    if es == [] then 0 else (if es[0].EndRound? then 1 else 0) + RoundsIn(es[1..])
  }

  lemma {:induction false} RoundsJoin(a: seq<Event>, b: seq<Event>)
    ensures RoundsIn(a + b) == RoundsIn(a) + RoundsIn(b)
  {
    if a == [] {
      assert a + b == b;
    } else {
      assert (a + b)[1..] == a[1..] + b;
      RoundsJoin(a[1..], b);
    }
  }

  lemma {:induction false} NoRoundEnds(es: seq<Event>)
    requires forall k :: 0 <= k < |es| ==> !es[k].EndRound?
    ensures RoundsIn(es) == 0
  {
    if es != [] {
      NoRoundEnds(es[1..]);
    }
  }

  /** As many rounds end as there are oracles. */
  lemma {:induction false} RoundsCounted(t: Tables, oracles: seq<seq<Ready>>, acceptFd: nat, fixed: set<nat>)
    requires Fit(t)
    ensures RoundsIn(AllRounds(t, oracles, acceptFd, fixed)) == |oracles|
    decreases |oracles|
  {
    hide Reactions, TablesAfterRound, Fires;
    if oracles != [] {
      var es := Reactions(Fires(t, oracles[0], acceptFd, fixed), t);
      ReactionsPlain(Fires(t, oracles[0], acceptFd, fixed), t);
      NoRoundEnds(es + Destroys(Closes(es)));
      RoundsJoin(es + Destroys(Closes(es)), [EndRound]);
      var next := TablesAfterRound(t, oracles[0], acceptFd, fixed);
      RoundsCounted(next, oracles[1..], acceptFd, fixed);
      RoundsJoin(Round(t, oracles[0], acceptFd, fixed), AllRounds(next, oracles[1..], acceptFd, fixed));
    }
  }
}
