/**
  The detector daemon's lifecycle: critical sections of its callers and of its
  sampling goroutines, interleaved in every order.
 */
module Daemon {
  import opened Wrappers

  /** A goroutine, its context and its done channel: all made by the same Start. */
  type Id = nat

  /** The fields guarded by the daemon's mutex; cancel and done name the goroutine they belong to. */
  datatype Shared = Shared(running: bool, stopping: bool, cancel: Option<Id>, done: Option<Id>, handlers: nat)

  const IDLE: Shared := Shared(false, false, None, None, 0)

  /* ----- Critical sections ----- */

  datatype StartResult = AlreadyRunning | StillStopping | Launched(handlers: nat)

  function StartSection(d: Shared, next: Id): (StartResult, Shared) {
    if d.running then (AlreadyRunning, d)
    else if d.stopping then (StillStopping, d)
    else (Launched(d.handlers), d.(running := true, cancel := Some(next), done := Some(next)))
  }

  /** The cancel function that Stop will call, if any. */
  function StopSection(d: Shared): (Option<Id>, Shared) {
    if !d.running || d.stopping then (None, d) else (d.cancel, d.(stopping := true))
  }

  datatype ShutdownResult = NotRunning | Await(cancel: Option<Id>, done: Option<Id>)

  function ShutdownSection(d: Shared): (ShutdownResult, Shared) {
    if !d.running then (NotRunning, d) else (Await(d.cancel, d.done), d.(stopping := true))
  }

  function SetHandlersSection(d: Shared, handlers: nat): (bool, Shared) {
    if d.running || d.stopping then (false, d) else (true, d.(handlers := handlers))
  }

  /** The deferred section of goroutine `id`. */
  function ExitSection(d: Shared, id: Id): Shared {
    if d.done == Some(id) then d.(running := false, stopping := false, cancel := None) else d
  }

  class Detector {
    var running: bool
    var stopping: bool
    var cancel: Option<Id>
    var done: Option<Id>
    var handlers: nat

    ghost function View(): Shared
      reads this
    {
      Shared(running, stopping, cancel, done, handlers)
    }

    constructor ()
      ensures View() == IDLE
    {
      running, stopping, cancel, done, handlers := false, false, None, None, 0;
    }

    method SetHandlers(h: nat) returns (ok: bool)
      modifies this
      ensures (ok, View()) == SetHandlersSection(old(View()), h)
    {
      if running || stopping {
        return false;
      }
      handlers := h;
      return true;
    }

    method Start(next: Id) returns (r: StartResult)
      modifies this
      ensures (r, View()) == StartSection(old(View()), next)
    {
      if running {
        return AlreadyRunning;
      }
      if stopping {
        return StillStopping;
      }
      running := true;
      cancel := Some(next);
      done := Some(next);
      return Launched(handlers);
    }

    method Stop() returns (c: Option<Id>)
      modifies this
      ensures (c, View()) == StopSection(old(View()))
    {
      if !running || stopping {
        return None;
      }
      stopping := true;
      return cancel;
    }

    method Shutdown() returns (r: ShutdownResult)
      modifies this
      ensures (r, View()) == ShutdownSection(old(View()))
    {
      if !running {
        return NotRunning;
      }
      stopping := true;
      return Await(cancel, done);
    }

    method Exit(id: Id)
      modifies this
      ensures View() == ExitSection(old(View()), id)
    {
      if done == Some(id) {
        running := false;
        stopping := false;
        cancel := None;
      }
    }
  }

  /* ----- The protocol ----- */

  /**
    Where a goroutine is: launched but not yet scheduled, at the select, sampling,
    inside a handler, reporting a recovered panic, about to take the lock in its
    deferred function, past that section, or finished with its channel closed.
   */
  datatype Phase = Pending | Selecting | Sampling | Handling | Reporting | Deferred | Cleared | Closed {
    /** It has not yet run its deferred critical section. */
    predicate Active() {
      !Cleared? && !Closed?
    }
  }

  datatype Routine = Routine(phase: Phase, cancelled: bool, handlers: nat, calls: nat, closes: nat)

  /** A Stop or Shutdown caller after its critical section: it owes a cancel call, or waits for done. */
  datatype Caller = Owes(cancel: Id, done: Option<Id>) | Waits(channel: Id)

  datatype State = State(shared: Shared, routines: seq<Routine>, callers: multiset<Caller>)

  const INITIAL: State := State(IDLE, [], multiset{})

  datatype Step =
    | SetHandlers(handlers: nat)
    | Start
    | Stop
    | Shutdown
    | Cancel(owes: Caller)            // the caller calls cancel()
    | DoneSeen(id: Id)                // a waiting Shutdown returns nil
    | TimedOut(id: Id)                // a waiting Shutdown returns an error
    | Begin(id: Id)                   // the goroutine is scheduled
    | SeeCancelled(id: Id)            // the select takes ctx.Done
    | Tick(id: Id)
    | SampleHandled(id: Id)           // a sample or an error goes to its handler
    | SampleDropped(id: Id)           // the handler for it is nil
    | SampleCancelled(id: Id)         // an error while cancelled ends the loop
    | HandlerReturns(id: Id)
    | Panic(id: Id)                   // sampling or a handler panics; onError is called
    | PanicUnreported(id: Id)         // the same, with a nil onError
    | Unwind(id: Id)                  // on to the deferred critical section
    | Exit(id: Id)
    | CloseDone(id: Id)

  predicate At(s: State, id: Id, phase: Phase) {
    id < |s.routines| && s.routines[id].phase == phase
  }

  predicate Enabled(s: State, step: Step) {
    match step
    case SetHandlers(_) => true
    case Start => true
    case Stop => true
    case Shutdown => true
    case Cancel(c) => c.Owes? && c in s.callers && c.cancel < |s.routines|
    case DoneSeen(id) => Waits(id) in s.callers && At(s, id, Closed)
    case TimedOut(id) => Waits(id) in s.callers
    case Begin(id) => At(s, id, Pending)
    case SeeCancelled(id) => At(s, id, Selecting) && s.routines[id].cancelled
    case Tick(id) => At(s, id, Selecting)
    case SampleHandled(id) => At(s, id, Sampling)
    case SampleDropped(id) => At(s, id, Sampling)
    case SampleCancelled(id) => At(s, id, Sampling) && s.routines[id].cancelled
    case HandlerReturns(id) => At(s, id, Handling)
    case Panic(id) => At(s, id, Sampling) || At(s, id, Handling)
    case PanicUnreported(id) => At(s, id, Sampling) || At(s, id, Handling)
    case Unwind(id) => At(s, id, Reporting)
    case Exit(id) => At(s, id, Deferred)
    case CloseDone(id) => At(s, id, Cleared)
  }

  function Move(s: State, id: Id, phase: Phase): State
    requires id < |s.routines|
  {
    s.(routines := s.routines[id := s.routines[id].(phase := phase)])
  }

  function Call(s: State, id: Id, phase: Phase): State
    requires id < |s.routines|
  {
    var r := s.routines[id];
    s.(routines := s.routines[id := r.(phase := phase, calls := r.calls + 1)])
  }

  function Do(s: State, step: Step): State
    requires Enabled(s, step)
  {
    match step
    case SetHandlers(h) => s.(shared := SetHandlersSection(s.shared, h).1)
    case Start =>
      var (r, shared) := StartSection(s.shared, |s.routines|);
      if r.Launched?
      then s.(shared := shared, routines := s.routines + [Routine(Pending, false, r.handlers, 0, 0)])
      else s
    case Stop =>
      var (c, shared) := StopSection(s.shared);
      s.(shared := shared, callers := if c.Some? then s.callers + multiset{Owes(c.value, None)} else s.callers)
    case Shutdown =>
      var (r, shared) := ShutdownSection(s.shared);
      s.(shared := shared,
         callers := if r.Await? && r.cancel.Some? then s.callers + multiset{Owes(r.cancel.value, r.done)} else s.callers)
    case Cancel(c) =>
      State(s.shared,
            s.routines[c.cancel := s.routines[c.cancel].(cancelled := true)],
            s.callers - multiset{c} + if c.done.Some? then multiset{Waits(c.done.value)} else multiset{})
    case DoneSeen(id) => s.(callers := s.callers - multiset{Waits(id)})
    case TimedOut(id) => s.(callers := s.callers - multiset{Waits(id)})
    case Begin(id) => Move(s, id, Selecting)
    case SeeCancelled(id) => Move(s, id, Deferred)
    case Tick(id) => Move(s, id, Sampling)
    case SampleHandled(id) => Call(s, id, Handling)
    case SampleDropped(id) => Move(s, id, Selecting)
    case SampleCancelled(id) => Move(s, id, Deferred)
    case HandlerReturns(id) => Move(s, id, Selecting)
    case Panic(id) => Call(s, id, Reporting)
    case PanicUnreported(id) => Move(s, id, Deferred)
    case Unwind(id) => Move(s, id, Deferred)
    case Exit(id) => Move(s.(shared := ExitSection(s.shared, id)), id, Cleared)
    case CloseDone(id) =>
      var r := s.routines[id];
      s.(routines := s.routines[id := r.(phase := Closed, closes := r.closes + 1)])
  }

  /* ----- The invariant ----- */

  /** The one goroutine that the shared fields name. */
  ghost predicate SharedOk(s: State) {
    var d := s.shared;
    && (d.stopping ==> d.running)
    && (d.cancel.Some? <==> d.running)
    && (d.running ==>
          && d.cancel == d.done
          && d.done.value < |s.routines|
          && s.routines[d.done.value].phase.Active()
          && s.routines[d.done.value].handlers == d.handlers)
  }

  /** Every other goroutine is past its critical section, and channels are closed once, at the end. */
  ghost predicate RoutinesOk(s: State) {
    forall id :: 0 <= id < |s.routines| ==>
      && (s.routines[id].phase.Active() ==> s.shared.running && s.shared.done == Some(id))
      && s.routines[id].closes == (if s.routines[id].phase.Closed? then 1 else 0)
  }

  ghost predicate CallersOk(s: State) {
    forall c :: c in s.callers ==>
      match c
      case Owes(id, done) => id < |s.routines| && (done.Some? ==> done.value == id)
      case Waits(id) => id < |s.routines| && s.routines[id].cancelled
  }

  /** The goroutine has been cancelled, or a caller is about to cancel it. */
  ghost predicate BeingStopped(s: State, id: Id)
    requires id < |s.routines|
  {
    s.routines[id].cancelled || exists c :: c in s.callers && c.Owes? && c.cancel == id
  }

  /** The running goroutine is being stopped exactly when a stop was requested. */
  ghost predicate CancelOk(s: State) {
    s.shared.running && s.shared.done.Some? && s.shared.done.value < |s.routines| ==>
      (s.shared.stopping <==> BeingStopped(s, s.shared.done.value))
  }

  ghost predicate Inv(s: State) {
    SharedOk(s) && RoutinesOk(s) && CallersOk(s) && CancelOk(s)
  }

  /** A goroutine that moves without entering or leaving its active phases. */
  lemma RoutineMoves(s: State, id: Id, r: Routine)
    requires Inv(s) && id < |s.routines|
    requires r.phase.Active() == s.routines[id].phase.Active()
    requires r.cancelled == s.routines[id].cancelled && r.handlers == s.routines[id].handlers
    requires r.closes == if r.phase.Closed? then 1 else 0
    ensures Inv(s.(routines := s.routines[id := r]))
  {
    var t := s.(routines := s.routines[id := r]);
    assert forall c :: c in t.callers <==> c in s.callers;
  }

  lemma StartKeepsInv(s: State)
    requires Inv(s)
    ensures Inv(Do(s, Start))
  {
    var t := Do(s, Start);
    if !s.shared.running {
      var id := |s.routines|;
      assert t.routines[id] == Routine(Pending, false, s.shared.handlers, 0, 0);
      forall c | c in t.callers ensures c.Owes? ==> c.cancel != id {
        assert c in s.callers;
      }
    }
  }

  /** Stop and Shutdown: the flag and the owed cancel call appear together. */
  lemma RequestKeepsInv(s: State, done: Option<Id>)
    requires Inv(s) && s.shared.running && (done.None? || done == s.shared.done)
    ensures Inv(s.(shared := s.shared.(stopping := true), callers := s.callers + multiset{Owes(s.shared.cancel.value, done)}))
  {
    var owed := Owes(s.shared.cancel.value, done);
    var t := s.(shared := s.shared.(stopping := true), callers := s.callers + multiset{owed});
    assert owed in t.callers;
    assert forall c :: c in t.callers <==> c in s.callers || c == owed;
  }

  lemma CancelKeepsInv(s: State, owed: Caller)
    requires Inv(s) && Enabled(s, Cancel(owed))
    ensures Inv(Do(s, Cancel(owed)))
  {
    var t := Do(s, Cancel(owed));
    forall c | c in t.callers ensures c in s.callers || (owed.done.Some? && c == Waits(owed.done.value)) {
    }
    forall c | c in s.callers && c != owed ensures c in t.callers {
    }
    assert t.routines[owed.cancel].cancelled;
    assert CallersOk(t);
    if s.shared.running && s.shared.done.value == owed.cancel {
      assert s.shared.stopping;
    }
  }

  lemma ReturnKeepsInv(s: State, id: Id)
    requires Inv(s)
    ensures Inv(s.(callers := s.callers - multiset{Waits(id)}))
  {
    var t := s.(callers := s.callers - multiset{Waits(id)});
    assert forall c :: c in t.callers ==> c in s.callers;
    assert forall c: Caller :: c.Owes? && c in s.callers ==> c in t.callers;
  }

  lemma ExitKeepsInv(s: State, id: Id)
    requires Inv(s) && Enabled(s, Exit(id))
    ensures Inv(Do(s, Exit(id)))
  {
    assert s.shared.running && s.shared.done == Some(id);
    var t := Do(s, Exit(id));
    assert forall c :: c in t.callers <==> c in s.callers;
  }

  lemma StepKeepsInv(s: State, step: Step)
    requires Inv(s) && Enabled(s, step)
    ensures Inv(Do(s, step))
  {
    match step {
      case SetHandlers(h) =>
        assert forall c :: c in Do(s, step).callers <==> c in s.callers;
      case Start => StartKeepsInv(s);
      case Stop =>
        if s.shared.running && !s.shared.stopping {
          RequestKeepsInv(s, None);
        }
      case Shutdown =>
        if s.shared.running {
          RequestKeepsInv(s, s.shared.done);
        }
      case Cancel(c) => CancelKeepsInv(s, c);
      case DoneSeen(id) => ReturnKeepsInv(s, id);
      case TimedOut(id) => ReturnKeepsInv(s, id);
      case Exit(id) => ExitKeepsInv(s, id);
      case _ => RoutineStepKeepsInv(s, step);
    }
  }

  predicate RoutineStep(step: Step) {
    !step.SetHandlers? && !step.Start? && !step.Stop? && !step.Shutdown? && !step.Cancel? && !step.DoneSeen?
    && !step.TimedOut? && !step.Exit?
  }

  lemma RoutineStepKeepsInv(s: State, step: Step)
    requires Inv(s) && Enabled(s, step) && RoutineStep(step)
    ensures Inv(Do(s, step))
  {
    var id := step.id;
    RoutineMoves(s, id, Do(s, step).routines[id]);
  }

  /* ----- Runs ----- */

  ghost predicate IsRun(run: seq<State>, steps: seq<Step>) {
    && |run| == |steps| + 1
    && run[0] == INITIAL
    && forall i :: 0 <= i < |steps| ==> Enabled(run[i], steps[i]) && run[i + 1] == Do(run[i], steps[i])
  }

  lemma {:induction false} RunKeepsInv(run: seq<State>, steps: seq<Step>)
    requires IsRun(run, steps)
    ensures forall i :: 0 <= i < |run| ==> Inv(run[i])
  {
    var n := |steps|;
    if n > 0 {
      RunKeepsInv(run[..n], steps[..n - 1]);
      assert run[..n][n - 1] == run[n - 1];
      StepKeepsInv(run[n - 1], steps[n - 1]);
    } else {
      assert Inv(INITIAL);
    }
  }

  predicate ActiveAt(s: State, id: Id) {
    id < |s.routines| && s.routines[id].phase.Active()
  }

  /**
    In every state of every interleaving: stopping implies running, the cancel
    function is set exactly while running, the one active goroutine while running
    is the one that done names, none is active otherwise, and it uses the
    configured handlers; every done channel is closed at most once,
    by its own goroutine's end; a stop request is never lost and nobody else
    cancels; and Start never reports that the daemon is still stopping.
   */
  lemma LifecycleSafety(run: seq<State>, steps: seq<Step>, i: nat)
    requires IsRun(run, steps) && i < |run|
    ensures var s := run[i];
            && (s.shared.stopping ==> s.shared.running)
            && (s.shared.cancel.Some? <==> s.shared.running)
            && (forall a: Id :: ActiveAt(s, a) <==> s.shared.running && s.shared.done == Some(a))
            && (s.shared.running ==> s.shared.done.Some?)
            && (forall a: Id :: ActiveAt(s, a) ==> s.routines[a].handlers == s.shared.handlers)
            && (forall a :: 0 <= a < |s.routines| ==> s.routines[a].closes == if s.routines[a].phase.Closed? then 1 else 0)
            && CancelOk(s)
            && forall id :: !StartSection(s.shared, id).0.StillStopping?
  {
    RunKeepsInv(run, steps);
  }

  /** A goroutine past its critical section stays past it and calls no handler. */
  lemma FinishedStaysFinished(s: State, step: Step, id: Id)
    requires Enabled(s, step) && id < |s.routines| && !s.routines[id].phase.Active()
    ensures var t := Do(s, step);
            && id < |t.routines| && !t.routines[id].phase.Active()
            && t.routines[id].calls == s.routines[id].calls
            && (s.routines[id].phase.Closed? ==> t.routines[id].phase.Closed?)
  {
  }

  lemma RunFinished(run: seq<State>, steps: seq<Step>, k: nat, id: Id)
    requires IsRun(run, steps) && k < |steps|
    requires id < |run[k].routines| && !run[k].routines[id].phase.Active()
    ensures id < |run[k + 1].routines| && !run[k + 1].routines[id].phase.Active()
    ensures run[k + 1].routines[id].calls == run[k].routines[id].calls
  {
    FinishedStaysFinished(run[k], steps[k], id);
  }

  lemma {:induction false} FinishedForever(run: seq<State>, steps: seq<Step>, i: nat, j: nat, id: Id)
    requires IsRun(run, steps) && i <= j < |run|
    requires id < |run[i].routines| && !run[i].routines[id].phase.Active()
    ensures id < |run[j].routines| && !run[j].routines[id].phase.Active()
    ensures run[j].routines[id].calls == run[i].routines[id].calls
    decreases j - i
  {
    if i < j {
      RunFinished(run, steps, i, id);
      FinishedForever(run, steps, i + 1, j, id);
    }
  }

  /**
    A nil Shutdown is final for what it stopped: the goroutine whose channel it
    saw closed was cancelled, and makes no handler call at any later point of the
    run; and when Shutdown found nothing running, no goroutine started so far does.
   */
  lemma ShutdownIsFinal(run: seq<State>, steps: seq<Step>, i: nat, j: nat, id: Id)
    requires IsRun(run, steps) && i < |steps| && i <= j < |run| && id < |run[i].routines|
    requires steps[i] == DoneSeen(id) || (steps[i] == Shutdown && ShutdownSection(run[i].shared).0.NotRunning?)
    ensures id < |run[j].routines| && run[j].routines[id].calls == run[i].routines[id].calls
    ensures steps[i] == DoneSeen(id) ==> run[i].routines[id].cancelled && run[i].routines[id].closes == 1
  {
    RunKeepsInv(run, steps);
    assert Inv(run[i]) && Enabled(run[i], steps[i]);
    FinishedForever(run, steps, i, j, id);
  }

  /* ----- What a nil Start means ----- */

  /** Only a request to stop makes a caller owe a cancel call. */
  lemma NoNewDebts(s: State, step: Step, c: Caller)
    requires Enabled(s, step) && !step.Stop? && !step.Shutdown?
    requires c.Owes? && c in Do(s, step).callers
    ensures c in s.callers
  {
  }

  /** Only a cancel call cancels a goroutine. */
  lemma OnlyCancelCancels(s: State, step: Step, id: Id)
    requires Enabled(s, step) && id < |s.routines| && !s.routines[id].cancelled
    requires !(step.Cancel? && step.owes.cancel == id)
    ensures id < |Do(s, step).routines| && !Do(s, step).routines[id].cancelled
  {
  }

  /** Between requests to stop, nobody begins to stop a goroutine. */
  lemma OnlyRequestsStop(s: State, step: Step, id: Id)
    requires Enabled(s, step) && !step.Stop? && !step.Shutdown?
    requires id < |s.routines| && !BeingStopped(s, id)
    ensures id < |Do(s, step).routines| && !BeingStopped(Do(s, step), id)
  {
    OnlyCancelCancels(s, step, id);
    forall c | c in Do(s, step).callers && c.Owes? ensures c.cancel != id {
      NoNewDebts(s, step, c);
    }
  }

  /** An owed cancel call stays owed until it is made. */
  lemma OwedUntilCalled(s: State, step: Step, c: Caller)
    requires Enabled(s, step) && c.Owes? && c in s.callers && step != Cancel(c)
    ensures c in Do(s, step).callers
  {
  }

  /** A cancelled goroutine stays cancelled. */
  lemma CancelledForever(s: State, step: Step, id: Id)
    requires Enabled(s, step) && id < |s.routines|
    ensures id < |Do(s, step).routines|
    ensures s.routines[id].cancelled || (step.Cancel? && step.owes.cancel == id) ==> Do(s, step).routines[id].cancelled
  {
  }

  /** A goroutine that is being stopped stays so. */
  lemma StoppingLasts(s: State, step: Step, id: Id)
    requires Enabled(s, step) && id < |s.routines| && BeingStopped(s, id)
    ensures id < |Do(s, step).routines| && BeingStopped(Do(s, step), id)
  {
    CancelledForever(s, step, id);
    if !s.routines[id].cancelled && !(step.Cancel? && step.owes.cancel == id) {
      var c :| c in s.callers && c.Owes? && c.cancel == id;
      OwedUntilCalled(s, step, c);
    }
  }

  /**
    Start never fails, and after it an active goroutine is running, launched by it
    or before. That goroutine is left alone if and only if no stop was in progress
    when Start was called, which is the flag that Start does not look at.
   */
  lemma StartContinuesIff(run: seq<State>, steps: seq<Step>, i: nat)
    requires IsRun(run, steps) && i < |steps| && steps[i] == Start
    ensures !StartSection(run[i].shared, |run[i].routines|).0.StillStopping?
    ensures run[i + 1].shared.running && run[i + 1].shared.done.Some?
    ensures ActiveAt(run[i + 1], run[i + 1].shared.done.value)
    ensures !BeingStopped(run[i + 1], run[i + 1].shared.done.value) <==> !run[i].shared.stopping
  {
    RunKeepsInv(run, steps);
    assert Inv(run[i]) && Inv(run[i + 1]);
  }

  /**
    What that means for the rest of the run: if no stop was in progress, nobody
    stops the goroutine before the next request to; if one was, it is being
    stopped for good.
   */
  lemma {:induction false} StartLasts(run: seq<State>, steps: seq<Step>, i: nat, j: nat)
    requires IsRun(run, steps) && i < j < |run| && steps[i] == Start
    requires run[i].shared.stopping || forall k :: i < k < j ==> !steps[k].Stop? && !steps[k].Shutdown?
    ensures run[i + 1].shared.done.Some? && run[i + 1].shared.done.value < |run[j].routines|
    ensures BeingStopped(run[j], run[i + 1].shared.done.value) <==> run[i].shared.stopping
    decreases j
  {
    if i + 1 == j {
      StartContinuesIff(run, steps, i);
    } else {
      StartLasts(run, steps, i, j - 1);
      RunStopStatus(run, steps, j - 1, run[i + 1].shared.done.value);
    }
  }

  /** Other steps than requests to stop change for no goroutine whether it is being stopped. */
  lemma StopStatusLasts(s: State, step: Step, id: Id)
    requires Enabled(s, step) && id < |s.routines|
    requires BeingStopped(s, id) || (!step.Stop? && !step.Shutdown?)
    ensures id < |Do(s, step).routines| && (BeingStopped(Do(s, step), id) <==> BeingStopped(s, id))
  {
    if BeingStopped(s, id) {
      StoppingLasts(s, step, id);
    } else {
      OnlyRequestsStop(s, step, id);
    }
  }

  lemma RunStopStatus(run: seq<State>, steps: seq<Step>, k: nat, id: Id)
    requires IsRun(run, steps) && k < |steps| && id < |run[k].routines|
    requires BeingStopped(run[k], id) || (!steps[k].Stop? && !steps[k].Shutdown?)
    ensures id < |run[k + 1].routines| && (BeingStopped(run[k + 1], id) <==> BeingStopped(run[k], id))
  {
    StopStatusLasts(run[k], steps[k], id);
  }

  /* ----- Whose handlers are called ----- */

  /** The handlers of the last SetHandlers before step k that came while nothing was running; 0 stands for nil. */
  function LastSet(run: seq<State>, steps: seq<Step>, k: nat): nat
    requires k <= |steps| < |run|
  {
    if k == 0 then 0
    else if steps[k - 1].SetHandlers? && !run[k - 1].shared.running then steps[k - 1].handlers
    else LastSet(run, steps, k - 1)
  }

  lemma HandlersStep(s: State, step: Step)
    requires Inv(s) && Enabled(s, step)
    ensures Do(s, step).shared.handlers ==
            if step.SetHandlers? && !s.shared.running then step.handlers else s.shared.handlers
  {
  }

  lemma {:induction false} HandlersAreLastSet(run: seq<State>, steps: seq<Step>, k: nat)
    requires IsRun(run, steps) && k <= |steps|
    ensures run[k].shared.handlers == LastSet(run, steps, k)
  {
    if k > 0 {
      HandlersAreLastSet(run, steps, k - 1);
      RunKeepsInv(run, steps);
      assert Inv(run[k - 1]) && Enabled(run[k - 1], steps[k - 1]) && run[k - 1 + 1] == Do(run[k - 1], steps[k - 1]);
      HandlersStep(run[k - 1], steps[k - 1]);
    }
  }

  /**
    A Start that launches gives its goroutine the handlers of the last SetHandlers
    that was accepted before it, and they are the ones it calls to its end.
   */
  lemma HandlersCalled(run: seq<State>, steps: seq<Step>, i: nat, j: nat)
    requires IsRun(run, steps) && i < j < |run| && steps[i] == Start && !run[i].shared.running
    ensures var id := |run[i].routines|;
            id < |run[j].routines| && run[j].routines[id].handlers == LastSet(run, steps, i)
  {
    RunKeepsInv(run, steps);
    assert Inv(run[i]) && run[i + 1] == Do(run[i], steps[i]);
    HandlersAreLastSet(run, steps, i);
    HandlersKept(run, steps, i + 1, j, |run[i].routines|);
  }

  lemma RoutineKeepsHandlers(s: State, step: Step, id: Id)
    requires Enabled(s, step) && id < |s.routines|
    ensures id < |Do(s, step).routines| && Do(s, step).routines[id].handlers == s.routines[id].handlers
  {
  }

  lemma {:induction false} HandlersKept(run: seq<State>, steps: seq<Step>, i: nat, j: nat, id: Id)
    requires IsRun(run, steps) && i <= j < |run| && id < |run[i].routines|
    ensures id < |run[j].routines| && run[j].routines[id].handlers == run[i].routines[id].handlers
    decreases j - i
  {
    if i < j {
      RunKeepsHandlers(run, steps, i, id);
      HandlersKept(run, steps, i + 1, j, id);
    }
  }

  lemma RunKeepsHandlers(run: seq<State>, steps: seq<Step>, k: nat, id: Id)
    requires IsRun(run, steps) && k < |steps| && id < |run[k].routines|
    ensures id < |run[k + 1].routines| && run[k + 1].routines[id].handlers == run[k].routines[id].handlers
  {
    RoutineKeepsHandlers(run[k], steps[k], id);
  }

  /** Every Stop or Shutdown while running has the running goroutine stopped. */
  lemma RequestsStop(run: seq<State>, steps: seq<Step>, i: nat)
    requires IsRun(run, steps) && i < |steps| && (steps[i].Stop? || steps[i].Shutdown?) && run[i].shared.running
    ensures run[i].shared.done.Some? && run[i + 1].shared.done == run[i].shared.done
    ensures run[i + 1].shared.running && run[i + 1].shared.stopping
    ensures ActiveAt(run[i + 1], run[i].shared.done.value) && BeingStopped(run[i + 1], run[i].shared.done.value)
  {
    RunKeepsInv(run, steps);
    assert Inv(run[i]) && Inv(run[i + 1]) && run[i + 1] == Do(run[i], steps[i]);
  }

  /** A nil Start may come while the only goroutine is already being stopped. */
  lemma StartDuringStop()
    ensures exists run: seq<State>, steps: seq<Step> ::
              && IsRun(run, steps) && steps == [Start, Stop, Start]
              && StartSection(run[2].shared, 1).0.AlreadyRunning?
              && |run[3].routines| == 1 && BeingStopped(run[3], 0)
  {
    var s1 := Do(INITIAL, Start);
    var s2 := Do(s1, Stop);
    var run := [INITIAL, s1, s2, Do(s2, Start)];
    assert Owes(0, None) in s2.callers;
    assert IsRun(run, [Start, Stop, Start]);
  }
}
