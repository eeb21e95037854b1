/** The hand-off of functors to an event loop, as interleaved atomic steps: other threads
    lock, push and unlock, and later write the eventfd; the loop thread polls, handles
    fired events, and drains the queue by swapping it out and running the batch. */
module EventLoopProtocol {
  type Functor = nat
  type ThreadId = nat

  /** Where the loop thread is. */
  datatype Point =
    | Starting             // loop() has not been entered yet
    | Polling              // in epoll_wait
    | Handling             // calling back the fired channels
    | Draining             // callingPendingFunctors_ is set, the queue not yet swapped
    | Running(waking: bool)  // running the batch; waking: just pushed, wakeup() not yet called

  datatype State = State(
    at: Point,
    calling: bool,              // callingPendingFunctors_
    pending: seq<Functor>,      // pendingFunctors_
    batch: seq<Functor>,        // the functors swapped out and not yet run
    wakeups: nat,               // the eventfd counter
    inFlight: set<ThreadId>,    // other threads between their push_back and their wakeup
    pushed: seq<Functor>,       // everything ever pushed, in order
    executed: seq<Functor>)     // everything ever run, in order

  datatype Event =
    | EarlyPush(f: Functor)
    | Start
    | OtherPush(t: ThreadId, f: Functor)
    | OtherWakeup(t: ThreadId)
    | PollReturns
    | HandleRead
    | HandlerPush(f: Functor)
    | BeginDrain
    | Swap
    | RunNext
    | FunctorPush(f: Functor)
    | FunctorWakeup
    | EndDrain

  const Initial := State(Starting, false, [], [], 0, {}, [], [])

  const EVENTFD_MAX: nat := 0xffff_ffff_ffff_fffe

  /** The counter after a write of 1: a write that would overflow fails and leaves it. */
  function Written(count: nat): nat {
    if count < EVENTFD_MAX then count + 1 else count
  }

  predicate Enabled(s: State, e: Event) {
    match e
    case EarlyPush(_) => s.at == Starting
    case Start => s.at == Starting
    case OtherPush(t, _) => t !in s.inFlight
    case OtherWakeup(t) => t in s.inFlight
    case PollReturns => s.at == Polling
    case HandleRead => s.at == Handling
    case HandlerPush(_) => s.at == Handling
    case BeginDrain => s.at == Handling
    case Swap => s.at == Draining
    case RunNext => s.at == Running(false) && s.batch != []
    case FunctorPush(_) => s.at == Running(false)
    case FunctorWakeup => s.at == Running(true)
    case EndDrain => s.at == Running(false) && s.batch == []
  }

  function Pushing(s: State, f: Functor): State {
    s.(pending := s.pending + [f], pushed := s.pushed + [f])
  }

  /** queueInLoop writes the eventfd unless the loop thread itself pushed outside a batch. */
  function Step(s: State, e: Event): State
    requires Enabled(s, e)
  {
    match e
    case EarlyPush(f) => Pushing(s, f)
    case Start => s.(at := Polling)
    case OtherPush(t, f) => Pushing(s, f).(inFlight := s.inFlight + {t})
    case OtherWakeup(t) => s.(wakeups := Written(s.wakeups), inFlight := s.inFlight - {t})
    case PollReturns => s.(at := Handling)
    case HandleRead => s.(wakeups := 0)
    case HandlerPush(f) => Pushing(s, f)
    case BeginDrain => s.(at := Draining, calling := true)
    case Swap => s.(at := Running(false), batch := s.pending, pending := [])
    case RunNext => s.(batch := s.batch[1..], executed := s.executed + [s.batch[0]])
    case FunctorPush(f) => Pushing(s, f).(at := Running(true))
    case FunctorWakeup => s.(at := Running(false), wakeups := Written(s.wakeups))
    case EndDrain => s.(at := Polling, calling := false)
  }

  // ----- Runs -----

  ghost predicate Feasible(log: seq<Event>)
    decreases |log|, 0
  {
    log == [] || (Feasible(log[..|log|-1]) && Enabled(Replay(log[..|log|-1]), log[|log|-1]))
  }

  ghost function Replay(log: seq<Event>): State
    requires Feasible(log)
    decreases |log|, 1
  {
    if log == [] then Initial else Step(Replay(log[..|log|-1]), log[|log|-1])
  }

  lemma ReplayStep(log: seq<Event>, e: Event)
    requires Feasible(log) && Enabled(Replay(log), e)
    ensures Feasible(log + [e]) && Replay(log + [e]) == Step(Replay(log), e)
  {
    assert (log + [e])[..|log|] == log;
  }

  // ----- What every step keeps -----

  /** Something will make the loop look at the queue: the counter, a thread about to write
      it, or the loop thread itself about to write it. */
  predicate WakeupDue(s: State) {
    s.wakeups > 0 || s.inFlight != {} || s.at == Running(true)
  }

  /** From a swap to the next poll's return: nothing reads the counter back to 0. */
  predicate Watched(s: State) {
    s.at == Starting || s.at == Polling || s.at.Running?
  }

  ghost predicate Inv(s: State, early: bool) {
    && (s.calling <==> s.at == Draining || s.at.Running?)
    && (!s.at.Running? ==> s.batch == [])
    && s.pushed == s.executed + s.batch + s.pending
    && (Watched(s) && !early && s.pending != [] ==> WakeupDue(s))
  }

  /** Whether the loop thread pushed before entering loop() and no round has drained since. */
  ghost predicate EarlyLeft(log: seq<Event>) {
    if log == [] then false
    else
      var rest := EarlyLeft(log[..|log|-1]);
      match log[|log|-1]
      case EarlyPush(_) => true
      case Swap => false
      case _ => rest
  }

  lemma InvStep(s: State, e: Event, early: bool)
    requires Inv(s, early) && Enabled(s, e)
    ensures Inv(Step(s, e), if e.EarlyPush? then true else if e.Swap? then false else early)
  {
    var t := Step(s, e);
    match e {
      case RunNext =>
        assert s.executed + s.batch == t.executed + t.batch;
      case Swap =>
        assert s.executed + s.batch + s.pending == t.executed + t.batch + t.pending;
      case OtherPush(id, _) =>
        assert id in t.inFlight;
      case EarlyPush(f) =>
        assert s.executed + s.batch + (s.pending + [f]) == s.pushed + [f];
      case HandlerPush(f) =>
        assert s.executed + s.batch + (s.pending + [f]) == s.pushed + [f];
      case FunctorPush(f) =>
        assert s.executed + s.batch + (s.pending + [f]) == s.pushed + [f];
      case _ =>
    }
    if e.OtherPush? {
      assert s.executed + s.batch + (s.pending + [e.f]) == s.pushed + [e.f];
    }
  }

  lemma {:induction false} InvHolds(log: seq<Event>)
    requires Feasible(log)
    ensures Inv(Replay(log), EarlyLeft(log))
    decreases |log|
  {
    if log != [] {
      InvHolds(log[..|log|-1]);
      InvStep(Replay(log[..|log|-1]), log[|log|-1], EarlyLeft(log[..|log|-1]));
    }
  }

  // ----- The theorems -----

  predicate PollReturned(log: seq<Event>) {
    exists k :: 0 <= k < |log| && log[k].PollReturns?
  }

  predicate OthersPushed(log: seq<Event>) {
    exists k :: 0 <= k < |log| && log[k].OtherPush?
  }

  /** Until the first poll returns the counter only grows, and only by pushes of others; and
      an early push is drained by the first round. */
  ghost predicate FirstPoll(s: State, early: bool, returned: bool, others: bool) {
    && (s.at == Starting ==> !returned)
    && (s.at.Running? ==> !early)
    && (s.at == Polling && early ==> !returned)
    && (!returned ==> s.at == Starting || s.at == Polling)
    && (!returned ==> (s.wakeups > 0 || s.inFlight != {} <==> others))
  }

  lemma FirstPollStep(s: State, e: Event, early: bool, returned: bool, others: bool)
    requires FirstPoll(s, early, returned, others) && Enabled(s, e)
    ensures FirstPoll(Step(s, e), if e.EarlyPush? then true else if e.Swap? then false else early,
                      returned || e.PollReturns?, others || e.OtherPush?)
  {
    if e.OtherPush? {
      assert e.t in Step(s, e).inFlight;
    }
  }

  lemma {:induction false} FirstPollHolds(log: seq<Event>)
    requires Feasible(log)
    ensures FirstPoll(Replay(log), EarlyLeft(log), PollReturned(log), OthersPushed(log))
    decreases |log|
  {
    if log != [] {
      var before, e := log[..|log|-1], log[|log|-1];
      FirstPollHolds(before);
      FirstPollStep(Replay(before), e, EarlyLeft(before), PollReturned(before), OthersPushed(before));
      LastEvent(log);
    }
  }

  lemma LastEvent(log: seq<Event>)
    requires log != []
    ensures var before, e := log[..|log|-1], log[|log|-1];
            && (PollReturned(log) <==> PollReturned(before) || e.PollReturns?)
            && (OthersPushed(log) <==> OthersPushed(before) || e.OtherPush?)
  {
    var before := log[..|log|-1];
    assert forall k :: 0 <= k < |before| ==> before[k] == log[k];
  }

  /** When a wakeup is lost: a loop thread that waits in epoll with functors pending has one
      coming, from the eventfd or from a thread about to write it, exactly when it did not
      push before it entered loop(), or has drained since, or another thread has pushed. */
  lemma WakeupIff(log: seq<Event>)
    requires Feasible(log)
    requires Replay(log).at == Polling && Replay(log).pending != []
    ensures Replay(log).wakeups > 0 || Replay(log).inFlight != {} <==> !EarlyLeft(log) || OthersPushed(log)
  {
    InvHolds(log);
    FirstPollHolds(log);
  }

  /** No lost wakeup: in every interleaving without such a push, when the loop thread waits
      in epoll with functors pending, the eventfd is readable or another thread is about to
      write it. */
  lemma NoLostWakeup(log: seq<Event>)
    requires Feasible(log) && !EarlyLeft(log)
    requires Replay(log).at == Polling && Replay(log).pending != []
    ensures Replay(log).wakeups > 0 || Replay(log).inFlight != {}
  {
    WakeupIff(log);
  }

  /** So a loop that waits with nothing due has run everything that was ever pushed, unless
      all that is missing was pushed before it entered loop(). */
  lemma IdleMeansDone(log: seq<Event>)
    requires Feasible(log)
    requires Replay(log).at == Polling && Replay(log).wakeups == 0 && Replay(log).inFlight == {}
    ensures !EarlyLeft(log) || OthersPushed(log) ==> Replay(log).executed == Replay(log).pushed
  {
    InvHolds(log);
    if Replay(log).pending != [] {
      WakeupIff(log);
    }
    var s := Replay(log);
    assert s.executed + [] + [] == s.executed;
  }

  /** Exactly once, in push order: what has run, what is left of the batch and what is
      pending are together everything pushed. */
  lemma ExactlyOnceInOrder(log: seq<Event>)
    requires Feasible(log)
    ensures var s := Replay(log);
            s.pushed == s.executed + s.batch + s.pending && s.executed <= s.pushed
  {
    InvHolds(log);
  }

  /** The exception: the loop thread pushing before it enters loop() writes no wakeup, so
      it can wait with a functor pending and nothing due. */
  lemma EarlyPushWaits(f: Functor)
    ensures var log := [EarlyPush(f), Start];
            && Feasible(log) && EarlyLeft(log)
            && Replay(log).at == Polling && Replay(log).pending == [f]
            && Replay(log).wakeups == 0 && Replay(log).inFlight == {}
  {
    var log := [EarlyPush(f), Start];
    assert [] + [EarlyPush(f)] == [EarlyPush(f)];
    ReplayStep([], EarlyPush(f));
    ReplayStep([EarlyPush(f)], Start);
    assert log == [EarlyPush(f)] + [Start];
    assert log[..1] == [EarlyPush(f)];
  }

  // ----- Rounds -----

  function RunsIn(events: seq<Event>): nat {
    if events == [] then 0 else RunsIn(events[..|events|-1]) + (if events[|events|-1].RunNext? then 1 else 0)
  }

  /** A batch is fixed when it is swapped out: until the next swap exactly its functors run,
      in order, whatever is pushed meanwhile, by other threads or by the functors
      themselves; so every round is finite. */
  lemma {:induction false} BatchIsFixed(log: seq<Event>, more: seq<Event>)
    requires Feasible(log) && Feasible(log + more)
    requires forall k :: 0 <= k < |more| ==> !more[k].Swap?
    ensures var s, t := Replay(log), Replay(log + more);
            && RunsIn(more) <= |s.batch|
            && t.batch == s.batch[RunsIn(more)..]
            && t.executed == s.executed + s.batch[..RunsIn(more)]
    decreases |more|
  {
    if more == [] {
      assert log + more == log;
    } else {
      hide Replay, Feasible, Step, Enabled;
      var e := more[|more|-1];
      var before := more[..|more|-1];
      ReplayMore(log, more);
      BatchIsFixed(log, before);
      var s := Replay(log);
      BatchStep(Replay(log + before), e);
      if e.RunNext? {
        assert s.batch[RunsIn(before)..][1..] == s.batch[RunsIn(more)..];
        assert s.batch[..RunsIn(before)] + [s.batch[RunsIn(before)]] == s.batch[..RunsIn(more)];
      }
    }
  }

  lemma ReplayMore(log: seq<Event>, more: seq<Event>)
    requires Feasible(log + more) && more != []
    ensures var before := more[..|more|-1];
            && Feasible(log + before)
            && Enabled(Replay(log + before), more[|more|-1])
            && Replay(log + more) == Step(Replay(log + before), more[|more|-1])
  {
    assert (log + more)[..|log + more|-1] == log + more[..|more|-1];
  }

  /** Only RunNext touches the batch, and it takes the first functor. */
  lemma BatchStep(s: State, e: Event)
    requires Enabled(s, e) && !e.Swap?
    ensures e.RunNext? ==>
      s.batch != [] && Step(s, e).batch == s.batch[1..] && Step(s, e).executed == s.executed + [s.batch[0]]
    ensures !e.RunNext? ==> Step(s, e).batch == s.batch && Step(s, e).executed == s.executed
  {
  }

  /** What is pushed while a batch runs is still pending when the batch has ended. */
  lemma PushedLaterWaits(log: seq<Event>, more: seq<Event>)
    requires Feasible(log) && Feasible(log + more) && Replay(log).at.Running?
    requires forall k :: 0 <= k < |more| ==> !more[k].Swap?
    requires Replay(log + more).batch == []
    ensures Replay(log + more).executed == Replay(log).executed + Replay(log).batch
    ensures Replay(log + more).pushed == Replay(log).executed + Replay(log).batch + Replay(log + more).pending
  {
    BatchIsFixed(log, more);
    InvHolds(log + more);
    var s := Replay(log);
    assert s.batch[..RunsIn(more)] == s.batch;
    assert Replay(log + more).executed + [] == Replay(log + more).executed;
  }
}
