/** The notification queue (internal/notify/dispatcher.go) as interleaved steps of
    its callers, its workers and its shutdown. */
module Notify {
  // `Dispatch` reads the closed flag and gives the lock back before it sends on
  // the channel, so it is two steps.

  datatype Event = Event(kind: string, toUserId: int, fromUserId: string, title: string, body: string)

  datatype Worker = Idle | Busy(event: Event) | Exited

  /** `accepted` are the events that were queued, in order, and `taken` says how
      many of them workers have taken; `passed` are the events of the `Dispatch`
      calls between their two steps; `returned` says that the `Stop` that closed
      the queue has returned, and `panicked` that a call sent on the closed
      channel, with its event `lost`. */
  datatype State = State(
    queue: seq<Event>, workers: seq<Worker>, passed: seq<Event>,
    closed: bool, cancelled: bool, returned: bool, panicked: bool,
    accepted: seq<Event>, taken: nat, delivered: multiset<Event>, dropped: seq<Event>, lost: seq<Event>)

  const CAPACITY := 256
  const WORKERS := 4

  const START := State([], [Idle, Idle, Idle, Idle], [], false, false, false, false, [], 0, multiset{}, [], [])

  datatype Step =
    | Check(event: Event)
    | Enqueue(call: nat)
    | Take(worker: nat)
    | Finish(worker: nat)
    | ExitOnClose(worker: nat)
    | ExitOnCancel(worker: nat)
    | Cancel
    | Stop
    | StopReturns

  function SetWorker(s: State, w: nat, x: Worker): State
    requires w < |s.workers|
  {
    s.(workers := s.workers[w := x])
  }

  /** The second step of `Dispatch`: a send on a closed channel panics, a full
      queue drops the event. */
  function EnqueueStep(s: State, i: nat): State {
    if i >= |s.passed| then s
    else
      var ev, rest := s.passed[i], s.passed[..i] + s.passed[i + 1..];
      if s.closed then s.(passed := rest, panicked := true, lost := s.lost + [ev])
      else if |s.queue| < CAPACITY then
        s.(passed := rest, queue := s.queue + [ev], accepted := s.accepted + [ev])
      else s.(passed := rest, dropped := s.dropped + [ev])
  }

  function TakeStep(s: State, w: nat): State {
    if w < |s.workers| && s.workers[w].Idle? && s.queue != [] then
      SetWorker(s, w, Busy(s.queue[0])).(queue := s.queue[1..], taken := s.taken + 1)
    else s
  }

  /** `deliver` has returned, whatever became of its requests. */
  function FinishStep(s: State, w: nat): State {
    if w < |s.workers| && s.workers[w].Busy? then
      SetWorker(s, w, Idle).(delivered := s.delivered + multiset{s.workers[w].event})
    else s
  }

  function ExitStep(s: State, w: nat, may: bool): State {
    if may && w < |s.workers| && s.workers[w].Idle? then SetWorker(s, w, Exited) else s
  }

  predicate AllExited(workers: seq<Worker>) { forall w :: 0 <= w < |workers| ==> workers[w].Exited? }

  /** One step; a step that is not enabled leaves the state as it is. */
  function Apply(s: State, a: Step): State {
    match a
    case Check(ev) => if s.closed then s else s.(passed := s.passed + [ev])
    case Enqueue(i) => EnqueueStep(s, i)
    case Take(w) => TakeStep(s, w)
    case Finish(w) => FinishStep(s, w)
    case ExitOnClose(w) => ExitStep(s, w, s.closed && s.queue == [])
    case ExitOnCancel(w) => ExitStep(s, w, s.cancelled)
    case Cancel => s.(cancelled := true)
    case Stop => s.(closed := true)
    case StopReturns => if s.closed && AllExited(s.workers) then s.(returned := true) else s
  }

  /** The state after a run of steps; a panic ends the process. */
  function Run(steps: seq<Step>): State {
    if steps == [] then START
    else
      var s := Run(steps[..|steps| - 1]);
      if s.panicked then s else Apply(s, steps[|steps| - 1])
  }

  // ------------------------------------------------------ what the steps are for

  /** A call that found the queue open puts its event at the end of it, drops it
      when 256 are queued, and panics when the queue has been closed since. */
  lemma CallEnqueues(s: State, i: nat)
    requires i < |s.passed|
    ensures var t, ev := Apply(s, Enqueue(i)), s.passed[i];
      && t.passed == s.passed[..i] + s.passed[i + 1..] && t.delivered == s.delivered && t.workers == s.workers
      && (t.panicked <==> s.panicked || s.closed)
      && (!s.closed && |s.queue| < 256 ==>
            t.queue == s.queue + [ev] && t.accepted == s.accepted + [ev] && t.dropped == s.dropped)
      && (!s.closed && |s.queue| >= 256 ==>
            t.queue == s.queue && t.accepted == s.accepted && t.dropped == s.dropped + [ev])
  {
  }

  /** An idle worker takes the first event of the queue, and gives it back to
      nobody: when its delivery is over, that event is delivered once more. */
  lemma WorkerDelivers(s: State, w: nat)
    requires w < |s.workers| && s.workers[w].Idle? && s.queue != []
    ensures var t := Apply(s, Take(w)); var u := Apply(t, Finish(w));
      && t.workers == s.workers[w := Busy(s.queue[0])] && t.queue == s.queue[1..] && t.delivered == s.delivered
      && u.workers == s.workers && u.queue == s.queue[1..] && u.delivered == s.delivered + multiset{s.queue[0]}
      && u.accepted == s.accepted
  {
    assert s.workers[w := Busy(s.queue[0])][w := Idle] == s.workers;
  }

  // -------------------------------------------------------------- invariants

  function Holds(w: Worker, e: Event): nat { if w == Busy(e) then 1 else 0 }

  /** How many workers are delivering an event. */
  function InFlight(workers: seq<Worker>, e: Event): nat {
    if workers == [] then 0 else Holds(workers[0], e) + InFlight(workers[1..], e)
  }

  lemma {:induction false} InFlightUpdate(workers: seq<Worker>, w: nat, x: Worker, e: Event)
    requires w < |workers|
    ensures InFlight(workers[w := x], e) + Holds(workers[w], e) == InFlight(workers, e) + Holds(x, e)
  {
    if w == 0 {
      assert workers[w := x][1..] == workers[1..];
    } else {
      assert workers[w := x][1..] == workers[1..][w - 1 := x];
      InFlightUpdate(workers[1..], w - 1, x, e);
    }
  }

  lemma {:induction false} NoneInFlight(workers: seq<Worker>, e: Event)
    requires forall w :: 0 <= w < |workers| ==> !workers[w].Busy?
    ensures InFlight(workers, e) == 0
  {
    if workers != [] {
      NoneInFlight(workers[1..], e);
    }
  }

  /** An event was accepted as often as it is queued, in flight and delivered. */
  ghost predicate Conserved(s: State, e: Event) {
    multiset(s.accepted)[e] == multiset(s.queue)[e] + InFlight(s.workers, e) + s.delivered[e]
  }

  /** The queue is bounded, and a worker leaves only when the context is cancelled
      or the closed queue is empty. */
  predicate Bounded(s: State) {
    && |s.workers| == WORKERS && |s.queue| <= CAPACITY
    && (s.returned ==> s.closed && AllExited(s.workers))
    && ((exists w :: 0 <= w < |s.workers| && s.workers[w].Exited?) ==> s.cancelled || (s.closed && s.queue == []))
  }

  lemma EnqueueConserves(s: State, i: nat, e: Event)
    requires Conserved(s, e)
    ensures Conserved(EnqueueStep(s, i), e)
  {
    hide InFlight;
  }

  lemma TakeConserves(s: State, w: nat, e: Event)
    requires Conserved(s, e)
    ensures Conserved(TakeStep(s, w), e)
  {
    hide InFlight;
    if w < |s.workers| && s.queue != [] {
      InFlightUpdate(s.workers, w, Busy(s.queue[0]), e);
      assert s.queue == [s.queue[0]] + s.queue[1..];
    }
  }

  lemma FinishConserves(s: State, w: nat, e: Event)
    requires Conserved(s, e)
    ensures Conserved(FinishStep(s, w), e)
  {
    hide InFlight;
    if w < |s.workers| {
      InFlightUpdate(s.workers, w, Idle, e);
    }
  }

  lemma ExitConserves(s: State, w: nat, may: bool, e: Event)
    requires Conserved(s, e)
    ensures Conserved(ExitStep(s, w, may), e)
  {
    hide InFlight;
    if w < |s.workers| {
      InFlightUpdate(s.workers, w, Exited, e);
    }
  }

  lemma StepKeepsConserved(s: State, a: Step, e: Event)
    requires Conserved(s, e)
    ensures Conserved(Apply(s, a), e)
  {
    hide InFlight, EnqueueStep, TakeStep, FinishStep, ExitStep, AllExited;
    match a
    case Enqueue(i) => EnqueueConserves(s, i, e);
    case Take(w) => TakeConserves(s, w, e);
    case Finish(w) => FinishConserves(s, w, e);
    case ExitOnClose(w) => ExitConserves(s, w, s.closed && s.queue == [], e);
    case ExitOnCancel(w) => ExitConserves(s, w, s.cancelled, e);
    case _ =>
  }

  lemma TakeKeepsBounded(s: State, w: nat)
    requires Bounded(s)
    ensures Bounded(TakeStep(s, w))
  {
    assert forall v :: 0 <= v < |s.workers| && TakeStep(s, w).workers[v].Exited? ==> s.workers[v].Exited?;
  }

  lemma FinishKeepsBounded(s: State, w: nat)
    requires Bounded(s)
    ensures Bounded(FinishStep(s, w))
  {
    assert forall v :: 0 <= v < |s.workers| && FinishStep(s, w).workers[v].Exited? ==> s.workers[v].Exited?;
  }

  lemma StepKeepsBounded(s: State, a: Step)
    requires Bounded(s)
    ensures Bounded(Apply(s, a))
  {
    hide TakeStep, FinishStep;
    if a.Take? {
      TakeKeepsBounded(s, a.worker);
    } else if a.Finish? {
      FinishKeepsBounded(s, a.worker);
    }
  }

  lemma {:induction false} RunKeepsBounded(steps: seq<Step>)
    ensures Bounded(Run(steps))
  {
    if steps != [] {
      RunKeepsBounded(steps[..|steps| - 1]);
      hide Apply, Bounded;
      StepKeepsBounded(Run(steps[..|steps| - 1]), steps[|steps| - 1]);
    }
  }

  /** No event is lost or delivered twice: in every reachable state an event was
      accepted as often as it is queued, in flight and delivered, and the queue
      holds at most 256; there are four workers. */
  lemma {:induction false} EventsAreConserved(steps: seq<Step>, e: Event)
    ensures var s := Run(steps);
      && multiset(s.accepted)[e] == multiset(s.queue)[e] + InFlight(s.workers, e) + s.delivered[e]
      && |s.queue| <= 256 && |s.workers| == 4
  {
    RunKeepsBounded(steps);
    if steps == [] {
      NoneInFlight(START.workers, e);
    } else {
      hide Apply, Bounded, InFlight;
      EventsAreConserved(steps[..|steps| - 1], e);
      StepKeepsConserved(Run(steps[..|steps| - 1]), steps[|steps| - 1], e);
    }
  }

  /** The queue is what has been accepted and not yet taken: events are taken in
      the order in which they were accepted. */
  lemma {:induction false} TakenInOrder(steps: seq<Step>)
    ensures var s := Run(steps); s.taken <= |s.accepted| && s.queue == s.accepted[s.taken..]
  {
    if steps != [] {
      hide Apply;
      TakenInOrder(steps[..|steps| - 1]);
      StepKeepsOrder(Run(steps[..|steps| - 1]), steps[|steps| - 1]);
    }
  }

  lemma StepKeepsOrder(s: State, a: Step)
    requires s.taken <= |s.accepted| && s.queue == s.accepted[s.taken..]
    ensures var t := Apply(s, a); t.taken <= |t.accepted| && t.queue == t.accepted[t.taken..]
  {
    hide AllExited, FinishStep, ExitStep, CAPACITY;
    if a.Finish? || a.ExitOnClose? || a.ExitOnCancel? {
      WorkersKeepCalls(s, a.worker, s.cancelled);
      WorkersKeepCalls(s, a.worker, s.closed && s.queue == []);
    } else if a.Take? && s.queue != [] {
      assert s.accepted[s.taken..][1..] == s.accepted[s.taken + 1..];
    }
  }

  /** An event is dropped only by a call that found the queue full, and the queue
      is not changed by it. */
  lemma DropsOnlyWhenFull(s: State, a: Step)
    ensures Apply(s, a).dropped != s.dropped ==>
              && a.Enqueue? && a.call < |s.passed| && |s.queue| >= CAPACITY
              && Apply(s, a).dropped == s.dropped + [s.passed[a.call]]
              && Apply(s, a).queue == s.queue && Apply(s, a).accepted == s.accepted
  {
    hide AllExited, CAPACITY, TakeStep, FinishStep, ExitStep;
    if a.Take? || a.Finish? || a.ExitOnClose? || a.ExitOnCancel? {
      WorkersKeepCalls(s, a.worker, s.cancelled);
      WorkersKeepCalls(s, a.worker, s.closed && s.queue == []);
    }
  }

  /** The events of the calls that found the queue open, in order. */
  function PastTheCheck(steps: seq<Step>): seq<Event> {
    if steps == [] then []
    else
      var before, a := Run(steps[..|steps| - 1]), steps[|steps| - 1];
      PastTheCheck(steps[..|steps| - 1]) + if a.Check? && !before.closed && !before.panicked then [a.event] else []
  }

  function Times(xs: seq<Event>, e: Event): nat { multiset(xs)[e] }

  lemma TimesAppend(xs: seq<Event>, x: Event, e: Event)
    ensures Times(xs + [x], e) == Times(xs, e) + if x == e then 1 else 0
  {
  }

  lemma TimesRemoved(xs: seq<Event>, i: nat, e: Event)
    requires i < |xs|
    ensures Times(xs, e) == Times(xs[..i] + xs[i + 1..], e) + if xs[i] == e then 1 else 0
  {
    assert xs == xs[..i] + [xs[i]] + xs[i + 1..];
    assert multiset(xs) == multiset(xs[..i]) + multiset{xs[i]} + multiset(xs[i + 1..]);
    assert multiset(xs[..i] + xs[i + 1..]) == multiset(xs[..i]) + multiset(xs[i + 1..]);
  }

  /** What became of the event past the check, or that it is still between the steps. */
  function Accounted(s: State, e: Event): nat {
    Times(s.accepted, e) + Times(s.dropped, e) + Times(s.passed, e) + Times(s.lost, e)
  }

  lemma EnqueueAccounts(s: State, i: nat, e: Event)
    ensures Accounted(EnqueueStep(s, i), e) == Accounted(s, e)
  {
    hide Times, CAPACITY;
    if i < |s.passed| {
      TimesRemoved(s.passed, i, e);
      TimesAppend(s.accepted, s.passed[i], e);
      TimesAppend(s.dropped, s.passed[i], e);
      TimesAppend(s.lost, s.passed[i], e);
    }
  }

  lemma StepAccounts(s: State, a: Step, e: Event)
    ensures Accounted(Apply(s, a), e) == Accounted(s, e) + if a.Check? && !s.closed && a.event == e then 1 else 0
  {
    hide AllExited, TakeStep, FinishStep, ExitStep, EnqueueStep, Times;
    if a.Take? || a.Finish? || a.ExitOnClose? || a.ExitOnCancel? {
      WorkersKeepCalls(s, a.worker, s.cancelled);
      WorkersKeepCalls(s, a.worker, s.closed && s.queue == []);
    } else if a.Enqueue? {
      EnqueueAccounts(s, a.call, e);
    } else if a.Check? {
      TimesAppend(s.passed, a.event, e);
    }
  }

  lemma OneLost(s: State, a: Step)
    requires !s.panicked && s.lost == []
    ensures (Apply(s, a).panicked <==> Apply(s, a).lost != []) && |Apply(s, a).lost| <= 1
  {
    hide AllExited, TakeStep, FinishStep, ExitStep, CAPACITY;
    if a.Take? || a.Finish? || a.ExitOnClose? || a.ExitOnCancel? {
      WorkersKeepCalls(s, a.worker, s.cancelled);
      WorkersKeepCalls(s, a.worker, s.closed && s.queue == []);
    }
  }

  /** Over every run, the events that passed the check are exactly those that were
      accepted, were dropped, are still between the two steps, or went down with
      a panic, each as often. */
  lemma {:induction false} EveryEventIsAccounted(steps: seq<Step>, e: Event)
    ensures var s := Run(steps);
      && Times(PastTheCheck(steps), e)
         == Times(s.accepted, e) + Times(s.dropped, e) + Times(s.passed, e) + Times(s.lost, e)
      && (s.panicked <==> s.lost != []) && |s.lost| <= 1
  {
    if steps == [] {
    } else {
      hide Apply, Times;
      var init, a := steps[..|steps| - 1], steps[|steps| - 1];
      EveryEventIsAccounted(init, e);
      StepAccounts(Run(init), a, e);
      if !Run(init).panicked {
        OneLost(Run(init), a);
      }
      if a.Check? {
        TimesAppend(PastTheCheck(init), a.event, e);
      }
      assert PastTheCheck(init) + [] == PastTheCheck(init);
    }
  }

  /** Over every run, an event has been dropped only if the queue was full before. */
  lemma {:induction false} DropsNeedAFullQueue(steps: seq<Step>)
    ensures Run(steps).dropped != [] ==> exists n :: 0 <= n < |steps| && |Run(steps[..n]).queue| == 256
  {
    if steps != [] && Run(steps).dropped != [] {
      var init, a := steps[..|steps| - 1], steps[|steps| - 1];
      RunKeepsBounded(init);
      DropsOnlyWhenFull(Run(init), a);
      if Run(init).dropped != [] {
        DropsNeedAFullQueue(init);
        var n :| 0 <= n < |init| && |Run(init[..n]).queue| == 256;
        assert steps[..n] == init[..n];
      } else {
        assert |Run(steps[..|steps| - 1]).queue| == 256;
      }
    }
  }

  /** When `Stop` has returned, what was accepted was delivered, once each, but
      for what a cancelled context left in the queue; without a cancellation that
      is nothing. */
  lemma {:induction false} StopDrains(steps: seq<Step>)
    requires Run(steps).returned
    ensures var s := Run(steps);
      && multiset(s.accepted) == s.delivered + multiset(s.queue)
      && (!s.cancelled ==> s.queue == [] && multiset(s.accepted) == s.delivered)
  {
    var s := Run(steps);
    RunKeepsBounded(steps);
    assert s.workers[0].Exited?;
    forall e ensures multiset(s.accepted)[e] == s.delivered[e] + multiset(s.queue)[e] {
      EventsAreConserved(steps, e);
      NoneInFlight(s.workers, e);
    }
  }

  // ------------------------------------------------------------------- panics

  /** No call of `Dispatch` is between its two steps when the queue is closed. */
  predicate NoOverlap(steps: seq<Step>) {
    steps != [] ==>
      && NoOverlap(steps[..|steps| - 1])
      && (steps[|steps| - 1] == Stop && !Run(steps[..|steps| - 1]).closed ==> Run(steps[..|steps| - 1]).passed == [])
  }

  lemma WorkersKeepCalls(s: State, w: nat, may: bool)
    ensures TakeStep(s, w).(workers := s.workers, queue := s.queue, taken := s.taken) == s
    ensures FinishStep(s, w).(workers := s.workers, delivered := s.delivered) == s
    ensures ExitStep(s, w, may).(workers := s.workers) == s
  {
  }

  lemma StepWithoutOverlap(s: State, a: Step)
    requires !s.panicked && (s.closed ==> s.passed == []) && (a == Stop && !s.closed ==> s.passed == [])
    ensures !Apply(s, a).panicked && (Apply(s, a).closed ==> Apply(s, a).passed == [])
  {
    hide AllExited, TakeStep, FinishStep, ExitStep;
    if a.Take? || a.Finish? || a.ExitOnClose? || a.ExitOnCancel? {
      WorkersKeepCalls(s, a.worker, s.cancelled);
      WorkersKeepCalls(s, a.worker, s.closed && s.queue == []);
    }
  }

  /** Where no call overlaps the close, none ever sends on the closed channel. */
  lemma {:induction false} NoOverlapNoPanic(steps: seq<Step>)
    requires NoOverlap(steps)
    ensures !Run(steps).panicked && (Run(steps).closed ==> Run(steps).passed == [])
  {
    if steps != [] {
      hide Apply;
      NoOverlapNoPanic(steps[..|steps| - 1]);
      StepWithoutOverlap(Run(steps[..|steps| - 1]), steps[|steps| - 1]);
    }
  }

  lemma SendPanics(s: State)
    requires s.closed && s.passed != []
    ensures Apply(s, Enqueue(0)).panicked
  {
  }

  lemma {:induction false} StaysSafe(steps: seq<Step>, more: seq<Step>)
    requires Run(steps).closed && Run(steps).passed == [] && !Run(steps).panicked
    ensures var t := Run(steps + more); t.closed && t.passed == [] && !t.panicked
    decreases |more|
  {
    if more == [] {
      assert steps + more == steps;
    } else {
      hide Apply, Run;
      var n := |more| - 1;
      assert steps + more == steps + more[..n] + [more[n]];
      StaysSafe(steps, more[..n]);
      StepWithoutOverlap(Run(steps + more[..n]), more[n]);
      StaysClosed(Run(steps + more[..n]), more[n]);
      RunNext(steps + more[..n], more[n]);
    }
  }

  lemma StaysClosed(s: State, a: Step)
    ensures s.closed ==> Apply(s, a).closed
  {
  }

  /** Closing the queue is safe for every continuation exactly when no call of
      `Dispatch` is then between its two steps. */
  lemma PanicsExactly(steps: seq<Step>)
    requires !Run(steps).closed && !Run(steps).panicked
    ensures (forall more: seq<Step> :: !Run(steps + [Stop] + more).panicked) <==> Run(steps).passed == []
  {
    RunNext(steps, Stop);
    hide Run;
    if Run(steps).passed == [] {
      forall more: seq<Step> ensures !Run(steps + [Stop] + more).panicked {
        StaysSafe(steps + [Stop], more);
      }
    } else {
      RunNext(steps + [Stop], Enqueue(0));
      SendPanics(Run(steps + [Stop]));
      assert Run(steps + [Stop] + [Enqueue(0)]).panicked;
    }
  }

  /** A run that panics: the call reads the flag, the queue is closed, the call sends. */
  lemma OverlapPanics(ev: Event)
    ensures Run([Check(ev), Stop, Enqueue(0)]).panicked
  {
    RunNext([], Check(ev));
    assert [] + [Check(ev)] == [Check(ev)];
    RunNext([Check(ev)], Stop);
    assert [Check(ev)] + [Stop] + [Enqueue(0)] == [Check(ev), Stop, Enqueue(0)];
    RunNext([Check(ev)] + [Stop], Enqueue(0));
  }

  lemma RunNext(steps: seq<Step>, a: Step)
    ensures Run(steps + [a]) == if Run(steps).panicked then Run(steps) else Apply(Run(steps), a)
  {
    assert (steps + [a])[..|steps|] == steps;
  }

  // ----------------------------------------------------------------- draining

  /** After the close nothing is queued any more, and the context is cancelled only
      by `Cancel`. */
  lemma ClosedStep(s: State, a: Step)
    requires s.closed
    ensures var t := Apply(s, a);
      && t.accepted == s.accepted && (s.queue == [] ==> t.queue == [])
      && (a != Cancel ==> t.cancelled == s.cancelled)
  {
    hide AllExited;
  }

  lemma {:induction false} AfterClose(steps: seq<Step>, more: seq<Step>)
    requires Run(steps).closed
    ensures var s, t := Run(steps), Run(steps + more);
      && t.closed && t.accepted == s.accepted
      && (s.queue == [] ==> t.queue == []) && (Cancel !in more ==> t.cancelled == s.cancelled)
    decreases |more|
  {
    hide Apply, Run;
    if more == [] {
      assert steps + more == steps;
    } else {
      var n := |more| - 1;
      assert more == more[..n] + [more[n]];
      assert steps + more == steps + more[..n] + [more[n]];
      AfterClose(steps, more[..n]);
      ClosedStep(Run(steps + more[..n]), more[n]);
      StaysClosed(Run(steps + more[..n]), more[n]);
      RunNext(steps + more[..n], more[n]);
    }
  }

  /** What the leaving of workers does not touch. */
  predicate SameQueue(s: State, t: State) {
    t.queue == s.queue && t.accepted == s.accepted && t.closed == s.closed && t.cancelled == s.cancelled && !t.panicked
  }

  /** Idle workers can leave: the context is cancelled, or the closed queue is empty. */
  predicate MayLeave(s: State) { s.cancelled || (s.closed && s.queue == []) }

  predicate ExitedBelow(s: State, w: nat) {
    |s.workers| == WORKERS && forall v :: 0 <= v < w && v < WORKERS ==> s.workers[v].Exited?
  }

  /** What a step of worker `w` leaves alone when it takes nothing from the queue. */
  predicate OnlyWorker(s: State, t: State, w: nat) {
    && t.queue == s.queue && t.accepted == s.accepted && t.closed == s.closed && t.cancelled == s.cancelled
    && t.panicked == s.panicked && |t.workers| == |s.workers|
    && forall v :: 0 <= v < |s.workers| && v != w ==> t.workers[v] == s.workers[v]
  }

  lemma FinishOne(s: State, w: nat)
    requires w < |s.workers|
    ensures OnlyWorker(s, Apply(s, Finish(w)), w) && !Apply(s, Finish(w)).workers[w].Busy?
    ensures s.workers[w].Exited? ==> Apply(s, Finish(w)).workers[w].Exited?
    ensures !s.workers[w].Exited? ==> Apply(s, Finish(w)).workers[w].Idle?
  {
  }

  lemma ExitOne(s: State, w: nat, a: Step)
    requires w < |s.workers| && !s.workers[w].Busy? && (a == ExitOnCancel(w) || a == ExitOnClose(w))
    ensures OnlyWorker(s, Apply(s, a), w) && !Apply(s, a).workers[w].Busy?
    ensures s.workers[w].Exited? ==> Apply(s, a).workers[w].Exited?
    ensures a == ExitOnCancel(w) && s.cancelled ==> Apply(s, a).workers[w].Exited?
    ensures a == ExitOnClose(w) && s.closed && s.queue == [] ==> Apply(s, a).workers[w].Exited?
  {
  }

  /** A worker that may leave finishes what it holds and leaves. */
  lemma LeaveOne(s: State, w: nat)
    requires w < WORKERS && MayLeave(s) && !s.panicked && ExitedBelow(s, w)
    ensures var mid := Apply(s, Finish(w)); var out := Apply(mid, ExitOnCancel(w)); var t := Apply(out, ExitOnClose(w));
      !mid.panicked && !out.panicked && SameQueue(s, t) && ExitedBelow(t, w + 1)
  {
    hide Apply;
    var mid := Apply(s, Finish(w));
    FinishOne(s, w);
    ExitOne(mid, w, ExitOnCancel(w));
    ExitOne(Apply(mid, ExitOnCancel(w)), w, ExitOnClose(w));
  }

  lemma {:induction false} LeaveAll(steps: seq<Step>, w: nat) returns (more: seq<Step>)
    requires w <= WORKERS && MayLeave(Run(steps)) && !Run(steps).panicked && ExitedBelow(Run(steps), w)
    ensures Cancel !in more && SameQueue(Run(steps), Run(steps + more)) && ExitedBelow(Run(steps + more), WORKERS)
    decreases WORKERS - w
  {
    hide Apply, Run, ExitedBelow;
    if w == WORKERS {
      more := [];
      assert steps + more == steps;
    } else {
      var two := steps + [Finish(w)] + [ExitOnCancel(w)];
      LeaveOne(Run(steps), w);
      RunNext(steps, Finish(w));
      RunNext(steps + [Finish(w)], ExitOnCancel(w));
      RunNext(two, ExitOnClose(w));
      var rest := LeaveAll(two + [ExitOnClose(w)], w + 1);
      more := [Finish(w)] + [ExitOnCancel(w)] + [ExitOnClose(w)] + rest;
      assert steps + more == two + [ExitOnClose(w)] + rest;
    }
  }

  lemma Returns(s: State)
    requires s.closed && ExitedBelow(s, WORKERS)
    ensures Apply(s, StopReturns) == s.(returned := true)
  {
  }

  /** A stop whose workers may leave can return with the queue as it is. */
  lemma CanReturnUndrained(steps: seq<Step>) returns (more: seq<Step>)
    requires Run(steps).closed && MayLeave(Run(steps)) && !Run(steps).panicked
    ensures Cancel !in more && Run(steps + more).returned
    ensures Run(steps + more).queue == Run(steps).queue && Run(steps + more).accepted == Run(steps).accepted
    ensures Run(steps + more).cancelled == Run(steps).cancelled
  {
    RunKeepsBounded(steps);
    hide Apply, Run;
    var out := LeaveAll(steps, 0);
    more := out + [StopReturns];
    assert steps + more == steps + out + [StopReturns];
    Returns(Run(steps + out));
    RunNext(steps + out, StopReturns);
  }

  /** The stop that closes the queue delivers everything, however it goes on. */
  ghost predicate Drains(steps: seq<Step>, more: seq<Step>) {
    var t := Run(steps + more);
    t.returned ==> multiset(t.accepted) == t.delivered
  }

  lemma DrainsIfEmpty(steps: seq<Step>, more: seq<Step>)
    requires Run(steps + more).returned ==> Run(steps + more).queue == [] || !Run(steps + more).cancelled
    ensures Drains(steps, more)
  {
    hide Run;
    if Run(steps + more).returned {
      StopDrains(steps + more);
      assert Run(steps + more).queue == [] ==> multiset(Run(steps + more).queue) == multiset{};
    }
  }

  lemma LeftInQueue(steps: seq<Step>, more: seq<Step>)
    requires Run(steps + more).returned && Run(steps + more).queue != []
    ensures !Drains(steps, more)
  {
    hide Run;
    var t := Run(steps + more);
    StopDrains(steps + more);
    assert t.queue[0] in multiset(t.queue);
    assert multiset(t.accepted)[t.queue[0]] > t.delivered[t.queue[0]];
  }

  lemma ClosesQuietly(steps: seq<Step>)
    requires !Run(steps).panicked
    ensures Run(steps + [Stop]) == Run(steps).(closed := true)
  {
    RunNext(steps, Stop);
  }

  /** When closing the queue is certain to deliver everything, for every way to go
      on without a further cancellation: exactly when the context has not been
      cancelled or nothing is queued. */
  lemma DrainsExactly(steps: seq<Step>)
    requires !Run(steps).closed && !Run(steps).panicked
    ensures (forall more: seq<Step> :: Cancel !in more ==> Drains(steps + [Stop], more))
       <==> !Run(steps).cancelled || Run(steps).queue == []
  {
    hide Run, Drains;
    var closed := steps + [Stop];
    ClosesQuietly(steps);
    if !Run(steps).cancelled || Run(steps).queue == [] {
      forall more: seq<Step> | Cancel !in more ensures Drains(closed, more) {
        AfterClose(closed, more);
        DrainsIfEmpty(closed, more);
      }
    } else {
      var more := CanReturnUndrained(closed);
      LeftInQueue(closed, more);
    }
  }

  /** If the context may still be cancelled afterwards, exactly when nothing is queued. */
  lemma DrainsWhateverHappensExactly(steps: seq<Step>)
    requires !Run(steps).closed && !Run(steps).panicked
    ensures (forall more: seq<Step> :: Drains(steps + [Stop], more)) <==> Run(steps).queue == []
  {
    hide Run, Drains;
    var closed := steps + [Stop];
    ClosesQuietly(steps);
    if Run(steps).queue == [] {
      forall more: seq<Step> ensures Drains(closed, more) {
        AfterClose(closed, more);
        DrainsIfEmpty(closed, more);
      }
    } else {
      RunNext(closed, Cancel);
      Cancels(Run(closed));
      var rest := CanReturnUndrained(closed + [Cancel]);
      assert closed + [Cancel] + rest == closed + ([Cancel] + rest);
      LeftInQueue(closed, [Cancel] + rest);
    }
  }

  /** A worker that has not left empties the queue by one event. */
  lemma TakesOne(s: State)
    requires |s.workers| == WORKERS && !s.workers[0].Exited? && s.queue != []
    ensures var mid := Apply(s, Finish(0)); var t := Apply(mid, Take(0));
      && mid.panicked == t.panicked == s.panicked && mid.queue == s.queue && t.queue == s.queue[1..]
      && t.accepted == s.accepted && t.closed == s.closed && t.cancelled == s.cancelled
  {
    FinishOne(s, 0);
    TakeOne(Apply(s, Finish(0)));
    hide Apply;
  }

  lemma TakeOne(s: State)
    requires |s.workers| > 0 && s.workers[0].Idle? && s.queue != []
    ensures var t := Apply(s, Take(0));
      && t.panicked == s.panicked && t.queue == s.queue[1..]
      && t.accepted == s.accepted && t.closed == s.closed && t.cancelled == s.cancelled
  {
  }

  lemma {:induction false} EmptyQueue(steps: seq<Step>) returns (more: seq<Step>)
    requires var s := Run(steps); s.closed && !s.cancelled && !s.panicked
    ensures Cancel !in more
    ensures var s, t := Run(steps), Run(steps + more);
      t.queue == [] && t.accepted == s.accepted && t.closed && !t.cancelled && !t.panicked
    decreases |Run(steps).queue|
  {
    RunKeepsBounded(steps);
    hide Apply, Run;
    if Run(steps).queue == [] {
      more := [];
      assert steps + more == steps;
    } else {
      TakesOne(Run(steps));
      RunNext(steps, Finish(0));
      RunNext(steps + [Finish(0)], Take(0));
      var rest := EmptyQueue(steps + [Finish(0)] + [Take(0)]);
      more := [Finish(0)] + [Take(0)] + rest;
      assert steps + more == steps + [Finish(0)] + [Take(0)] + rest;
    }
  }

  /** Stopping can always come to an end: from every reachable state that has not
      panicked, closing the queue can be followed, with nothing cancelled, by a
      return of the stop; and where the context was not cancelled, with all that
      was ever accepted delivered, once each. */
  lemma StopCanFinish(steps: seq<Step>)
    requires !Run(steps).panicked
    ensures exists more: seq<Step> :: var t := Run(steps + [Stop] + more);
      && Cancel !in more && t.returned && t.accepted == Run(steps).accepted
      && (!Run(steps).cancelled ==> t.queue == [] && t.delivered == multiset(t.accepted))
  {
    hide Run;
    var closed := steps + [Stop];
    ClosesQuietly(steps);
    var more: seq<Step>;
    if Run(steps).cancelled {
      more := CanReturnUndrained(closed);
    } else {
      var emptied := EmptyQueue(closed);
      var left := CanReturnUndrained(closed + emptied);
      more := emptied + left;
      assert closed + more == closed + emptied + left;
      StopDrains(closed + more);
    }
    assert Cancel !in more && Run(steps + [Stop] + more).returned;
  }

  lemma Cancels(s: State)
    ensures Apply(s, Cancel) == s.(cancelled := true)
  {
  }

  /** A cancelled context can leave an accepted event undelivered when `Stop` returns. */
  lemma CancelCanLoseEvents(ev: Event)
    ensures exists steps :: Run(steps).returned && Run(steps).accepted == [ev] && Run(steps).delivered == multiset{}
  {
    var steps := QueuedThenCancelled(ev);
    var out := LeaveQueued(ev, steps);
    hide Apply, Run;
    RunNext(out, Stop);
    RunNext(out + [Stop], StopReturns);
    StopsAtOnce(Run(out));
    assert Run(out + [Stop] + [StopReturns]).returned;
  }

  lemma StopsAtOnce(s: State)
    requires AllExited(s.workers) && !s.panicked
    ensures var t := Apply(Apply(s, Stop), StopReturns);
      t.returned && t.accepted == s.accepted && t.delivered == s.delivered && !Apply(s, Stop).panicked
  {
  }

  lemma {:induction false} QueuedThenCancelled(ev: Event) returns (steps: seq<Step>)
    ensures Run(steps) == START.(queue := [ev], accepted := [ev], cancelled := true)
  {
    steps := [Check(ev)] + [Enqueue(0)] + [Cancel];
    RunNext([], Check(ev));
    assert [] + [Check(ev)] == [Check(ev)];
    RunNext([Check(ev)], Enqueue(0));
    RunNext([Check(ev)] + [Enqueue(0)], Cancel);
  }

  lemma {:induction false} LeaveQueued(ev: Event, steps: seq<Step>) returns (out: seq<Step>)
    requires Run(steps) == START.(queue := [ev], accepted := [ev], cancelled := true)
    ensures AllExited(Run(out).workers) && !Run(out).panicked
    ensures Run(out).accepted == [ev] && Run(out).delivered == multiset{}
  {
    out := steps;
    for w := 0 to WORKERS
      invariant Run(out) == Run(steps).(workers := Run(out).workers) && |Run(out).workers| == WORKERS
      invariant forall v :: 0 <= v < WORKERS ==> Run(out).workers[v] == if v < w then Exited else Idle
    {
      hide Run;
      RunNext(out, ExitOnCancel(w));
      out := out + [ExitOnCancel(w)];
    }
  }
}
