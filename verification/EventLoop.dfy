/** The event loop object.  A method is the code a thread runs; between two atomic actions
    it lets the other threads act, as a schedule says, so what the methods promise holds
    under every interleaving. */
module EventLoop {
  import opened EventLoopProtocol

  /** What another thread does when it gets its turn. */
  datatype Move = PushBack(t: ThreadId, f: Functor) | Write(t: ThreadId)

  type Schedule = nat -> seq<Move>

  class Loop {
    var at: Point
    var callingPendingFunctors: bool
    var pendingFunctors: seq<Functor>
    var functors: seq<Functor>
    var wakeupCount: nat
    var inFlight: set<ThreadId>
    var clock: nat
    ghost var pushed: seq<Functor>
    ghost var executed: seq<Functor>
    ghost var log: seq<Event>

    ghost function View(): State
      reads this
    {
      State(at, callingPendingFunctors, pendingFunctors, functors, wakeupCount, inFlight, pushed, executed)
    }

    /** The fields are what replaying all atomic steps so far gives. */
    ghost predicate Valid()
      reads this
    {
      Feasible(log) && Replay(log) == View()
    }

    constructor ()
      ensures Valid() && View() == Initial && log == []
    {
      at, callingPendingFunctors, pendingFunctors, functors := Starting, false, [], [];
      wakeupCount, inFlight, clock := 0, {}, 0;
      pushed, executed, log := [], [], [];
    }

    /** loop() is entered. */
    method Enter()
      requires Valid() && at == Starting
      modifies this`at, this`log
      ensures Valid() && log == old(log) + [Start] && at == Polling
    {
      ghost var before := View();
      at := Polling;
      Record(Start, before);
    }

    /** Records an atomic step that has just been taken. */
    ghost method Record(e: Event, before: State)
      requires Feasible(log) && Replay(log) == before && Enabled(before, e) && View() == Step(before, e)
      modifies this`log
      ensures Valid() && log == old(log) + [e]
    {
      ReplayStep(log, e);
      log := log + [e];
    }

    // ----- Other threads -----

    /** One turn of another thread inside queueInLoop: the push under the lock, or the
        write after it.  A move the thread cannot make now does nothing. */
    method Act(m: Move)
      requires Valid()
      modifies this
      ensures Valid() && old(log) <= log && clock == old(clock)
      ensures forall k :: |old(log)| <= k < |log| ==> log[k].OtherPush? || log[k].OtherWakeup?
    {
      ghost var before := View();
      match m {
        case PushBack(t, f) =>
          if t !in inFlight {
            pendingFunctors := pendingFunctors + [f];
            pushed := pushed + [f];
            inFlight := inFlight + {t};
            Record(OtherPush(t, f), before);
          }
        case Write(t) =>
          if t in inFlight {
            Wakeup();
            inFlight := inFlight - {t};
            Record(OtherWakeup(t), before);
          }
      }
    }

    /** The turns the schedule gives to other threads at this point. */
    method Interfere(schedule: Schedule)
      requires Valid()
      modifies this
      ensures Valid() && old(log) <= log
      ensures forall k :: |old(log)| <= k < |log| ==> log[k].OtherPush? || log[k].OtherWakeup?
    {
      var moves := schedule(clock);
      clock := clock + 1;
      var i := 0;
      while i < |moves|
        invariant 0 <= i <= |moves| && Valid() && old(log) <= log
        invariant forall k :: |old(log)| <= k < |log| ==> log[k].OtherPush? || log[k].OtherWakeup?
      {
        Act(moves[i]);
        i := i + 1;
      }
    }

    /** Writes 1 to the eventfd; a write that would overflow the counter fails. */
    method Wakeup()
      modifies this`wakeupCount
      ensures wakeupCount == Written(old(wakeupCount))
    {
      if wakeupCount < EVENTFD_MAX {
        wakeupCount := wakeupCount + 1;
      }
    }

    // ----- The loop thread -----

    /** The loop thread queues a functor: no wakeup is written unless it is running a batch. */
    method QueueInLoop(f: Functor, schedule: Schedule)
      requires Valid() && (at == Starting || at == Handling || at == Running(false))
      modifies this
      ensures Valid() && old(log) <= log && at == old(at)
      ensures functors == old(functors) && executed == old(executed)
      ensures old(pushed) + [f] <= pushed && NoRead(old(log), log)
    {
      hide Replay, Feasible;
      ghost var before := View();
      ghost var e := if at == Starting then EarlyPush(f) else if at == Handling then HandlerPush(f) else FunctorPush(f);
      pendingFunctors := pendingFunctors + [f];
      pushed := pushed + [f];
      if at == Running(false) {
        at := Running(true);
      }
      RunningIsCalling(before);
      Record(e, before);
      ghost var here := log;
      Interfere(schedule);
      OthersOnly(here, log);
      if callingPendingFunctors {
        before := View();
        Wakeup();
        at := Running(false);
        Record(FunctorWakeup, before);
      }
    }

    /** The flag is set exactly while the queue is being drained. */
    lemma RunningIsCalling(s: State)
      requires Feasible(log) && Replay(log) == s
      ensures s.calling <==> s.at == Draining || s.at.Running?
    {
      InvHolds(log);
    }

    /** A functor is called: what it queues goes behind everything queued before. */
    method Call(requeued: seq<Functor>, schedule: Schedule)
      requires Valid() && at == Running(false)
      modifies this
      ensures Valid() && old(log) <= log && at == Running(false)
      ensures functors == old(functors) && executed == old(executed)
      ensures old(pushed) <= pushed && Subsequence(requeued, pushed[|old(pushed)|..])
      ensures NoRead(old(log), log)
    {
      var i := 0;
      while i < |requeued|
        invariant 0 <= i <= |requeued| && Valid() && old(log) <= log && at == Running(false)
        invariant functors == old(functors) && executed == old(executed)
        invariant old(pushed) <= pushed && Subsequence(requeued[..i], pushed[|old(pushed)|..])
        invariant NoRead(old(log), log)
      {
        ghost var soFar := pushed;
        QueueInLoop(requeued[i], schedule);
        assert requeued[..i + 1] == requeued[..i] + [requeued[i]];
        QueuedBehind(requeued[..i], soFar, requeued[i], pushed, |old(pushed)|);
        i := i + 1;
      }
      assert requeued[..i] == requeued;
    }

    /** Sets the flag and swaps the queue out.  Everything pushed so far has run or is in
        the batch. */
    method SwapOut(schedule: Schedule)
      requires Valid() && at == Handling
      modifies this
      ensures Valid() && old(log) <= log && at == Running(false)
      ensures old(pushed) <= pushed == executed + functors
      ensures executed == old(executed) && pendingFunctors == [] && NoRead(old(log), log)
    {
      hide Replay, Feasible, Inv;
      ghost var before := View();
      callingPendingFunctors := true;
      at := Draining;
      Record(BeginDrain, before);
      ghost var here := log;
      Interfere(schedule);
      OthersOnly(here, log);
      ExactlyOnceInOrder(log);
      RunningIsCalling(View());
      NothingInBatch(log);
      before := View();
      functors := pendingFunctors;
      pendingFunctors := [];
      at := Running(false);
      Record(Swap, before);
    }

    lemma NothingInBatch(log: seq<Event>)
      requires Feasible(log)
      ensures !Replay(log).at.Running? ==> Replay(log).batch == []
    {
      InvHolds(log);
    }

    /** Runs the functors swapped out, in order; what each of them queues goes behind
        everything queued before, in order too. */
    method RunBatch(body: Functor -> seq<Functor>, schedule: Schedule)
      requires Valid() && at == Running(false)
      modifies this
      ensures Valid() && old(log) <= log && at == Running(false)
      ensures executed == old(executed) + old(functors) && functors == []
      ensures old(pushed) <= pushed && NoRead(old(log), log)
      ensures Subsequence(Requeued(body, old(functors)), pushed[|old(pushed)|..])
    {
      hide Replay, Feasible, Subsequence, Requeued;
      ghost var due, batch := executed + functors, functors;
      ghost var k := 0;
      NothingRequeued(body, batch, pushed);
      while functors != []
        invariant Valid() && old(log) <= log && at == Running(false)
        invariant executed + functors == due
        invariant 0 <= k <= |batch| && functors == batch[k..]
        invariant old(pushed) <= pushed && NoRead(old(log), log)
        invariant Subsequence(Requeued(body, batch[..k]), pushed[|old(pushed)|..])
        decreases |functors|
      {
        ghost var before, soFar := View(), pushed;
        var f := functors[0];
        functors := functors[1..];
        executed := executed + [f];
        Record(RunNext, before);
        Call(body(f), schedule);
        RequeuedBehind(body, batch, k, soFar, pushed, |old(pushed)|);
        k := k + 1;
      }
      assert batch[..k] == batch;
    }

    /** One drain.  Whatever the functors queue themselves and whatever other threads do
        meanwhile, it ends, and everything pushed before it began has run, in push order.
        What the functors queued is pending, and something is due to wake the loop for it. */
    method DoPendingFunctors(body: Functor -> seq<Functor>, schedule: Schedule)
      requires Valid() && at == Handling
      modifies this
      ensures Valid() && old(log) <= log && at == Polling
      ensures old(pushed) <= executed <= pushed
      ensures old(executed) <= executed && NoRead(old(log), log)
      ensures Subsequence(Requeued(body, executed[|old(executed)|..]), pendingFunctors)
      ensures pendingFunctors != [] ==> wakeupCount > 0 || inFlight != {}
    {
      hide Replay, Feasible, Subsequence, Requeued;
      FirstPollHolds(log);
      ghost var first := log;
      SwapOut(schedule);
      ghost var due := pushed;
      RunBatch(body, schedule);
      ghost var before := View();
      callingPendingFunctors := false;
      at := Polling;
      Record(EndDrain, before);
      ExactlyOnceInOrder(log);
      assert pushed[|due|..] == pendingFunctors;
      assert executed[|old(executed)|..] == due[|old(executed)|..];
      RoundIsWatched(first, log);
    }

    /** Reads the eventfd, which sets its counter back to 0. */
    method HandleRead()
      requires Valid() && at == Handling
      modifies this`wakeupCount, this`log
      ensures Valid() && log == old(log) + [EventLoopProtocol.HandleRead] && wakeupCount == 0
    {
      ghost var before := View();
      wakeupCount := 0;
      Record(EventLoopProtocol.HandleRead, before);
    }

    /** One turn of the loop, from the return of the poll to the next poll: the wakeup
        channel may be among the fired ones, and the handlers may queue functors.  What was
        queued before the turn has run by its end, and behind that, in order, what the
        handlers queued. */
    method Turn(wakeupFired: bool, handled: seq<Functor>, body: Functor -> seq<Functor>, schedule: Schedule)
      requires Valid() && at == Polling
      modifies this
      ensures Valid() && old(log) <= log && at == Polling
      ensures old(executed) <= old(pushed) <= executed <= pushed
      ensures NoRead(old(log), log) <==> !wakeupFired
      ensures Subsequence(Requeued(body, executed[|old(executed)|..]), pendingFunctors)
      ensures pendingFunctors != [] ==> wakeupCount > 0 || inFlight != {}
      ensures Subsequence(handled, executed[|old(pushed)|..])
    {
      hide Replay, Feasible;
      ExactlyOnceInOrder(log);
      ghost var before := View();
      at := Handling;
      Record(PollReturns, before);
      if wakeupFired {
        HandleRead();
        assert log[|old(log)| + 1].HandleRead?;
      }
      var i := 0;
      while i < |handled|
        invariant 0 <= i <= |handled| && Valid() && old(log) <= log && at == Handling
        invariant executed == old(executed)
        invariant old(pushed) <= pushed && Subsequence(handled[..i], pushed[|old(pushed)|..])
        invariant NoRead(old(log), log) <==> !wakeupFired
      {
        ghost var soFar := pushed;
        QueueInLoop(handled[i], schedule);
        assert handled[..i + 1] == handled[..i] + [handled[i]];
        QueuedBehind(handled[..i], soFar, handled[i], pushed, |old(pushed)|);
        i := i + 1;
      }
      ghost var queued := pushed;
      DoPendingFunctors(body, schedule);
      assert handled[..i] == handled;
      SubsequenceLonger(handled, queued, executed, |old(pushed)|);
    }
  }

  /** Of the events that to adds none reads the eventfd. */
  predicate NoRead(from: seq<Event>, to: seq<Event>)
  {
    forall k :: |from| <= k < |to| ==> !to[k].HandleRead?
  }

  /** What some functors queue when they run one after the other. */
  function Requeued(body: Functor -> seq<Functor>, fs: seq<Functor>): seq<Functor> {
    if fs == [] then [] else Requeued(body, fs[..|fs|-1]) + body(fs[|fs|-1])
  }

  /** Every functor's own, in the order the functors run in. */
  lemma {:induction false} RequeuedJoins(body: Functor -> seq<Functor>, a: seq<Functor>, f: Functor, b: seq<Functor>)
    ensures Requeued(body, [f]) == body(f)
    ensures Requeued(body, a + [f] + b) == Requeued(body, a) + body(f) + Requeued(body, b)
    decreases |b|
  {
    assert [f][..0] == [];
    if b == [] {
      assert a + [f] + b == a + [f] && (a + [f])[..|a|] == a;
    } else {
      RequeuedJoins(body, a, f, b[..|b|-1]);
      assert (a + [f] + b)[..|a| + |b|] == a + [f] + b[..|b|-1];
    }
  }

  lemma NothingRequeued(body: Functor -> seq<Functor>, fs: seq<Functor>, pushed: seq<Functor>)
    ensures Subsequence(Requeued(body, fs[..0]), pushed[|pushed|..]) && fs[0..] == fs
  {
  }

  lemma RequeuedBehind(body: Functor -> seq<Functor>, fs: seq<Functor>, k: nat, s: seq<Functor>, t: seq<Functor>,
                       from: nat)
    requires k < |fs| && from <= |s| && s <= t
    requires Subsequence(Requeued(body, fs[..k]), s[from..]) && Subsequence(body(fs[k]), t[|s|..])
    ensures Subsequence(Requeued(body, fs[..k + 1]), t[from..])
  {
    hide Subsequence;
    assert fs[..k + 1][..k] == fs[..k];
    SubsequenceJoins(Requeued(body, fs[..k]), s[from..], body(fs[k]), t[|s|..]);
    assert t[from..] == s[from..] + t[|s|..];
  }

  lemma {:induction false} SubsequenceJoins(a: seq<Functor>, x: seq<Functor>, b: seq<Functor>, y: seq<Functor>)
    requires Subsequence(a, x) && Subsequence(b, y)
    ensures Subsequence(a + b, x + y)
    decreases |y|
  {
    if b == [] {
      assert a + b == a;
      SubsequenceGrows(a, x, y);
    } else {
      assert (x + y)[..|x + y|-1] == x + y[..|y|-1];
      if b[|b|-1] == y[|y|-1] && Subsequence(b[..|b|-1], y[..|y|-1]) {
        SubsequenceJoins(a, x, b[..|b|-1], y[..|y|-1]);
        assert (a + b)[..|a + b|-1] == a + b[..|b|-1];
      } else {
        SubsequenceJoins(a, x, b, y[..|y|-1]);
      }
    }
  }

  /** A drain follows the return of a poll, so no early push is left behind it. */
  lemma RoundIsWatched(from: seq<Event>, to: seq<Event>)
    requires Feasible(to) && from <= to && PollReturned(from) && Replay(to).at == Polling
    ensures Replay(to).pending != [] ==> Replay(to).wakeups > 0 || Replay(to).inFlight != {}
  {
    FirstPollHolds(to);
    var k :| 0 <= k < |from| && from[k].PollReturns?;
    assert to[k].PollReturns?;
    if Replay(to).pending != [] {
      WakeupIff(to);
    }
  }

  /** a's elements stand in b in a's order, perhaps with others between them. */
  predicate Subsequence(a: seq<Functor>, b: seq<Functor>)
    decreases |b|
  {
    a == [] || (b != [] && (
      (a[|a|-1] == b[|b|-1] && Subsequence(a[..|a|-1], b[..|b|-1])) || Subsequence(a, b[..|b|-1])))
  }

  /** A subsequence stands in the whole, in its own order. */
  lemma {:induction false} Places(a: seq<Functor>, b: seq<Functor>) returns (at: seq<nat>)
    requires Subsequence(a, b)
    ensures |at| == |a| && forall k :: 0 <= k < |a| ==> at[k] < |b| && b[at[k]] == a[k]
    ensures forall j, k :: 0 <= j < k < |a| ==> at[j] < at[k]
    decreases |b|
  {
    if a == [] {
      at := [];
    } else if a[|a|-1] == b[|b|-1] && Subsequence(a[..|a|-1], b[..|b|-1]) {
      at := Places(a[..|a|-1], b[..|b|-1]);
      at := at + [|b| - 1];
    } else {
      at := Places(a, b[..|b|-1]);
    }
  }

  lemma {:induction false} SubsequenceGrows(a: seq<Functor>, b: seq<Functor>, c: seq<Functor>)
    requires Subsequence(a, b)
    ensures Subsequence(a, b + c)
    decreases |c|
  {
    if c == [] {
      assert b + c == b;
    } else {
      SubsequenceGrows(a, b, c[..|c|-1]);
      assert (b + c)[..|b + c|-1] == b + c[..|c|-1];
    }
  }

  lemma QueuedBehind(a: seq<Functor>, s: seq<Functor>, f: Functor, t: seq<Functor>, from: nat)
    requires from <= |s| && Subsequence(a, s[from..]) && s + [f] <= t
    ensures Subsequence(a + [f], t[from..])
  {
    var b := s[from..];
    assert (b + [f])[..|b|] == b && (a + [f])[..|a|] == a;
    SubsequenceGrows(a + [f], b + [f], t[|s| + 1..]);
    assert t == s + [f] + t[|s| + 1..];
    assert t[from..] == b + [f] + t[|s| + 1..];
  }

  lemma SubsequenceLonger(a: seq<Functor>, s: seq<Functor>, t: seq<Functor>, from: nat)
    requires from <= |s| && s <= t && Subsequence(a, s[from..])
    ensures Subsequence(a, t[from..])
  {
    SubsequenceGrows(a, s[from..], t[|s|..]);
    assert t[from..] == s[from..] + t[|s|..];
  }

  /** Steps of other threads change neither the batch nor what has run, nor where the loop
      thread is. */
  lemma {:induction false} OthersOnly(from: seq<Event>, to: seq<Event>)
    requires Feasible(to) && from <= to
    requires forall k :: |from| <= k < |to| ==> to[k].OtherPush? || to[k].OtherWakeup?
    ensures Feasible(from)
    ensures var s, t := Replay(from), Replay(to);
            && t.at == s.at && t.calling == s.calling && t.batch == s.batch && t.executed == s.executed
            && s.pushed <= t.pushed
    decreases |to|
  {
    if |to| == |from| {
      assert to == from;
    } else {
      OthersOnly(from, to[..|to|-1]);
    }
  }
}
