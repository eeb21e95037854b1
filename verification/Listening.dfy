/** How long a connection is read from.  A fired channel stands at the events reported, not
    at those asked for, and what it asks for after a callback is built on them: so asking
    for reading can end while the connection stays open. */
module Listening {
  import opened ConnLifecycle
  import opened ServerRounds

  /** After the callbacks of an open connection reading is still asked for exactly when it
      was reported too, or writing was not, or there is output left. */
  lemma ReadingKeptIff(asked: bv32, events: bv32, r: Ready)
    requires Has(asked, READ) && !Has(events, ERROR) && !(Has(events, READ) && r.readCount == 0)
    ensures Has(ConnAsks(asked, events, r), READ) <==> Has(events, READ) || !Has(events, WRITE) || !r.drained
  {
    hide Has, With, Without;
    ReadAlone();
    WithFlags(events, WRITE, READ);
    WithFlags(events, WRITE, WRITE);
    WithoutFlags(events, WRITE, READ);
    WithoutFlags(With(events, WRITE), WRITE, READ);
  }

  /** Nothing but errors and hang-ups can be reported for a connection. */
  predicate Unheard(t: Tables, id: nat) {
    && Fit(t) && 0 < id < t.next
    && forall fd :: fd in t.known && t.known[fd] == id ==> !Has(t.interest[fd], READ) && !Has(t.interest[fd], WRITE)
  }

  predicate Silent(es: seq<Event>, id: nat) {
    Read(id) !in es && Write(id) !in es
  }

  predicate Mute(n: Notice, id: nat) {
    n.owner == id ==> !Has(n.events, READ) && !Has(n.events, WRITE)
  }

  predicate Owned(n: Notice, t: Tables) {
    n.r.fd in t.known && n.owner == t.known[n.r.fd]
  }

  lemma ReactionSilent(n: Notice, t: Tables, id: nat)
    requires Unheard(t, id) && Mute(n, id)
    ensures Silent(Reaction(n, t), id)
  {
    hide Has, AfterRead, ConnReaction, Unheard;
    assert id != 0 by { UnheardIs(t, id); }
    if n.owner == id {
      CallbacksIff(id, n.events, n.r);
    } else if n.owner != 0 {
      OwnEvents(n.owner, n.events, n.r, id);
    }
  }

  lemma UnheardIs(t: Tables, id: nat)
    requires Unheard(t, id)
    ensures Fit(t) && 0 < id < t.next
    ensures forall fd :: fd in t.known && t.known[fd] == id ==>
      fd in t.interest && !Has(t.interest[fd], READ) && !Has(t.interest[fd], WRITE)
  {
  }

  lemma OwnEvents(owner: nat, events: bv32, r: Ready, id: nat)
    requires owner != id
    ensures Silent(ConnReaction(owner, events, r), id)
  {
    hide Has, AfterRead;
  }

  lemma StillUnheard(n: Notice, t: Tables, id: nat)
    requires Unheard(t, id) && Mute(n, id) && Owned(n, t)
    ensures Unheard(TablesAfter(n, t), id)
  {
    hide Has, ConnAsks, GreetAsks;
    NoneHas();
    if n.owner == id {
      ConnAsksFlags(t.interest[n.r.fd], n.events, n.r, READ);
    }
  }

  lemma OwnedLater(n: Notice, m: Notice, t: Tables)
    requires Owned(n, t) && Owned(m, t)
    ensures Owned(m, TablesAfter(n, t))
  {
    hide Has, ConnAsks, GreetAsks;
  }

  lemma {:induction false} ReactionsSilent(ns: seq<Notice>, t: Tables, id: nat)
    requires Unheard(t, id) && forall k :: 0 <= k < |ns| ==> Mute(ns[k], id) && Owned(ns[k], t)
    ensures Silent(Reactions(ns, t), id) && Unheard(TablesAfterAll(ns, t), id)
  {
    hide Unheard, Mute, Owned, Reaction, TablesAfter;
    if ns != [] {
      ReactionSilent(ns[0], t, id);
      StillUnheard(ns[0], t, id);
      forall k | 0 <= k < |ns[1..]| ensures Mute(ns[1..][k], id) && Owned(ns[1..][k], TablesAfter(ns[0], t)) {
        OwnedLater(ns[0], ns[k + 1], t);
      }
      ReactionsSilent(ns[1..], TablesAfter(ns[0], t), id);
    }
  }

  /** The poll reports no reading and no writing that was not asked for. */
  lemma FiresMute(t: Tables, oracle: seq<Ready>, acceptFd: nat, fixed: set<nat>, id: nat)
    requires Unheard(t, id)
    ensures var ns := Fires(t, oracle, acceptFd, fixed);
      forall k :: 0 <= k < |ns| ==> Mute(ns[k], id) && Owned(ns[k], t)
  {
    hide Has, Masked, Reported;
    var reports := Reported(oracle, t.interest, fixed);
    forall k | 0 <= k < |reports|
      ensures reports[k].fd in t.known
      ensures t.known[reports[k].fd] == id ==> !Has(reports[k].events, READ) && !Has(reports[k].events, WRITE)
    {
      ReportedIff(oracle, t.interest, fixed, reports[k]);
      var i: nat :| FirstReport(oracle, t.interest, fixed, i) && IsReport(reports[k], oracle[i], t.interest, fixed);
      var fd := oracle[i].fd;
      MaskedFlags(oracle[i].events, t.interest[fd], fd in fixed);
    }
  }

  lemma {:induction false} GoneUnheard(t: Tables, ids: seq<nat>, id: nat)
    requires Unheard(t, id)
    ensures Unheard(AllGone(t, ids), id)
    decreases |ids|
  {
    hide Has, Gone;
    if ids != [] {
      OneGone(t, ids[0], id);
      GoneUnheard(Gone(t, ids[0]), ids[1..], id);
    }
  }

  lemma OneGone(t: Tables, gone: nat, id: nat)
    requires Unheard(t, id)
    ensures Unheard(Gone(t, gone), id)
  {
    hide Has;
  }

  lemma RoundSilent(t: Tables, oracle: seq<Ready>, acceptFd: nat, fixed: set<nat>, id: nat)
    requires Unheard(t, id)
    ensures Fit(t) && Silent(Round(t, oracle, acceptFd, fixed), id)
    ensures Unheard(TablesAfterRound(t, oracle, acceptFd, fixed), id)
  {
    hide Unheard, Mute, Owned, Reactions, TablesAfterAll, AllGone, Fires;
    UnheardIs(t, id);
    var ns := Fires(t, oracle, acceptFd, fixed);
    FiresMute(t, oracle, acceptFd, fixed, id);
    ReactionsSilent(ns, t, id);
    GoneUnheard(TablesAfterAll(ns, t), Closes(Reactions(ns, t)), id);
  }

  /** Once it is unheard, a connection is never read from or written to again, whatever the
      kernel reports in however many rounds. */
  lemma {:induction false} NeverReadAgain(t: Tables, oracles: seq<seq<Ready>>, acceptFd: nat, fixed: set<nat>, id: nat)
    requires Unheard(t, id)
    ensures Fit(t) && Silent(AllRounds(t, oracles, acceptFd, fixed), id)
    decreases |oracles|
  {
    hide Unheard, Round, TablesAfterRound;
    UnheardIs(t, id);
    if oracles != [] {
      RoundSilent(t, oracles[0], acceptFd, fixed, id);
      NeverReadAgain(TablesAfterRound(t, oracles[0], acceptFd, fixed), oracles[1..], acceptFd, fixed, id);
    }
  }

  /** One such round: the kernel reports that a connection may write and nothing else, and
      the rest of the output is written. */
  lemma DrainedIsUnheard(t: Tables, r: Ready, acceptFd: nat, fixed: set<nat>, id: nat)
    requires Fit(t) && 0 < id < t.next && r.fd in t.known && r.fd !in fixed
    requires forall fd :: fd in t.known && t.known[fd] == id <==> fd == r.fd
    requires r.events == WRITE && r.drained && Has(t.interest[r.fd], WRITE)
    ensures Unheard(TablesAfterRound(t, [r], acceptFd, fixed), id)
    ensures Close(id) !in Round(t, [r], acceptFd, fixed)
  {
    hide Has, Unheard, Reported, With, Without, Reaction, TablesAfter, Fires;
    var n := Notice(id, r.fd == acceptFd, WRITE, r);
    OneFires(t, r, acceptFd, fixed);
    OneReaction(n, t);
    var es := [Handle(id), Write(id)];
    assert Reactions([n], t) == es && TablesAfterAll([n], t) == TablesAfter(n, t) by { assert [n][1..] == []; }
    NoCloses(id);
    NotAskedAny(n, t, id);
  }

  lemma NoCloses(id: nat)
    ensures Closes([Handle(id), Write(id)]) == []
  {
    assert [Handle(id), Write(id)][..1] == [Handle(id)] && [Handle(id)][..0] == [];
    assert Closes([Handle(id)]) == [];
  }

  lemma OneFires(t: Tables, r: Ready, acceptFd: nat, fixed: set<nat>)
    requires Fit(t) && r.fd in t.known && r.fd !in fixed && r.events == WRITE && Has(t.interest[r.fd], WRITE)
    ensures Fires(t, [r], acceptFd, fixed) == [Notice(t.known[r.fd], r.fd == acceptFd, WRITE, r)]
  {
    hide Has, Masked;
    WriteIsAllowed(t.interest[r.fd]);
    assert [r][..0] == [];
    assert Reported([], t.interest, fixed) == [];
    assert Listed([], r, t.interest, fixed) == [r];
    assert Reported([r], t.interest, fixed) == [r];
  }

  lemma WriteIsAllowed(asked: bv32)
    requires Has(asked, WRITE)
    ensures Masked(WRITE, asked, false) == WRITE != NONE
  {
  }

  lemma OneReaction(n: Notice, t: Tables)
    requires n.owner != 0 && n.events == WRITE && n.r.drained && n.r.fd in t.interest
    ensures Reaction(n, t) == [Handle(n.owner), Write(n.owner)]
    ensures TablesAfter(n, t) == t.(interest := t.interest[n.r.fd := Without(WRITE, WRITE)])
  {
    hide Without, With;
    OnlyWriting();
  }

  lemma OnlyWriting()
    ensures WRITE != NONE && !Has(WRITE, ERROR) && !Has(WRITE, READ) && Has(WRITE, WRITE)
  {
  }

  lemma NotAskedAny(n: Notice, t: Tables, id: nat)
    requires Fit(t) && 0 < id < t.next && n.r.fd in t.known
    requires forall fd :: fd in t.known && t.known[fd] == id <==> fd == n.r.fd
    ensures Unheard(t.(interest := t.interest[n.r.fd := Without(WRITE, WRITE)]), id)
  {
    hide Has, Without;
    WithoutFlags(WRITE, WRITE, READ);
    OnlyWriting();
    ReadAlone();
    WriteTakenOff();
  }

  lemma WriteTakenOff()
    ensures !Has(Without(WRITE, WRITE), READ) && !Has(Without(WRITE, WRITE), WRITE)
  {
  }
}
