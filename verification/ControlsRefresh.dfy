/**
 The coalescing refresh of operational controls in src/worker.ts, as atomic steps between
 awaits: a request made while a refresh is under way is served by a later one.
 */
module ControlsRefresh {
  /** Where the asynchronous function behind the promise stands; Idle: there is no promise. */
  datatype Phase = Idle | Refreshing | Recording | Settling

  /** waitForOperationalControlsRefresh: which promise it awaits, counted from the first. */
  datatype Waiter = NotWaiting | Waiting(promise: nat) | Returned

  datatype Event =
    | Request           // scheduleOperationalControlsRefresh is called
    | RefreshSucceeds   // the awaited refresh is done
    | RefreshFails      // it has thrown: the catch handler records the failure
    | FailureRecorded   // the recording is over, whatever came of it
    | FinallyRuns       // the finally handler clears the promise
    | WaitBegins        // the shutdown wait looks at the promise
    | WaitResumes       // the promise it awaits is settled, and it looks again

  /** The module's two variables and the waiter, how many promises there have been, and a
      history: when requests were made and refreshes started, and how many of those run. */
  datatype State = State(requested: bool, phase: Phase, promise: nat, waiter: Waiter,
                         now: nat, requests: seq<nat>, starts: seq<nat>, running: nat)

  const INITIAL := State(false, Idle, 0, NotWaiting, 0, [], [], 0)

  /** A promise settles when its finally handler has run. */
  predicate Settled(s: State, promise: nat) {
    promise < s.promise || s.phase.Idle?
  }

  predicate Enabled(s: State, e: Event) {
    match e
    case Request => true
    case RefreshSucceeds => s.phase.Refreshing? && s.running > 0
    case RefreshFails => s.phase.Refreshing? && s.running > 0
    case FailureRecorded => s.phase.Recording?
    case FinallyRuns => s.phase.Settling?
    case WaitBegins => s.waiter.NotWaiting?
    case WaitResumes => s.waiter.Waiting? && Settled(s, s.waiter.promise)
  }

  /** refreshOperationalControlsUntilCurrent up to its await. */
  function Begin(s: State): State {
    s.(requested := false, phase := Refreshing, starts := s.starts + [s.now], running := s.running + 1)
  }

  function Schedule(s: State): State {
    var asked := s.(requested := true);
    if s.phase.Idle? then Begin(asked.(promise := s.promise + 1)) else asked
  }

  /** The wait returns without a promise, and awaits the present one otherwise. */
  function Look(s: State): State {
    s.(waiter := if s.phase.Idle? then Returned else Waiting(s.promise))
  }

  function Step(s: State, e: Event): State
    requires Enabled(s, e)
  {
    var next :=
      match e
      case Request => Schedule(s.(requests := s.requests + [s.now]))
      case RefreshSucceeds =>
        var done := s.(running := s.running - 1);
        if s.requested then Begin(done) else done.(phase := Settling)
      case RefreshFails => s.(phase := Recording, running := s.running - 1)
      case FailureRecorded => s.(phase := Settling)
      case FinallyRuns =>
        var cleared := s.(phase := Idle);
        if s.requested then Schedule(cleared) else cleared
      case WaitBegins => Look(s)
      case WaitResumes => Look(s);
    next.(now := s.now + 1)
  }

  /** The module as written, one method for each stretch of code between awaits. */
  class Worker {
    var controlsRefreshRequested: bool
    var phase: Phase
    var waiter: Waiter
    var promise: nat
    ghost var now: nat
    ghost var requests: seq<nat>
    ghost var starts: seq<nat>
    ghost var running: nat

    ghost function Current(): State
      reads this
    {
      State(controlsRefreshRequested, phase, promise, waiter, now, requests, starts, running)
    }

    constructor ()
      ensures Current() == INITIAL
    {
      controlsRefreshRequested, phase, waiter, promise := false, Idle, NotWaiting, 0;
      now, requests, starts, running := 0, [], [], 0;
    }

    method RefreshOperationalControlsUntilCurrent()
      modifies this
      ensures Current() == Begin(old(Current()))
    {
      controlsRefreshRequested := false;
      phase := Refreshing;
      starts := starts + [now];
      running := running + 1;
    }

    method ScheduleOperationalControlsRefresh()
      modifies this
      ensures Current() == Schedule(old(Current()))
    {
      controlsRefreshRequested := true;
      if phase != Idle { return; }
      promise := promise + 1;
      RefreshOperationalControlsUntilCurrent();
    }

    method Ask()
      modifies this
      ensures Current() == Step(old(Current()), Request)
    {
      requests := requests + [now];
      ScheduleOperationalControlsRefresh();
      now := now + 1;
    }

    method AfterRefresh(failed: bool)
      requires phase == Refreshing && running > 0
      modifies this
      ensures Current() == Step(old(Current()), if failed then RefreshFails else RefreshSucceeds)
    {
      running := running - 1;
      if failed {
        phase := Recording;
      } else if controlsRefreshRequested {
        RefreshOperationalControlsUntilCurrent();
      } else {
        phase := Settling;
      }
      now := now + 1;
    }

    method AfterRecording()
      requires phase == Recording
      modifies this
      ensures Current() == Step(old(Current()), FailureRecorded)
    {
      phase := Settling;
      now := now + 1;
    }

    method Finally()
      requires phase == Settling
      modifies this
      ensures Current() == Step(old(Current()), FinallyRuns)
    {
      phase := Idle;
      if controlsRefreshRequested { ScheduleOperationalControlsRefresh(); }
      now := now + 1;
    }

    method WaitForOperationalControlsRefresh()
      requires !waiter.Returned? && Enabled(Current(), if waiter.NotWaiting? then WaitBegins else WaitResumes)
      modifies this
      ensures Current() == Step(old(Current()), if old(waiter.NotWaiting?) then WaitBegins else WaitResumes)
    {
      if phase == Idle {
        waiter := Returned;
      } else {
        waiter := Waiting(promise);
      }
      now := now + 1;
    }
  }

  // ---------- Every run ----------

  ghost predicate Possible(s: State, run: seq<Event>)
    decreases |run|
  {
    run == [] || (Enabled(s, run[0]) && Possible(Step(s, run[0]), run[1..]))
  }

  ghost function After(s: State, run: seq<Event>): State
    requires Possible(s, run)
    decreases |run|
  {
    if run == [] then s else After(Step(s, run[0]), run[1..])
  }

  /** A start no earlier than the request. */
  ghost predicate Served(starts: seq<nat>, request: nat) {
    exists i :: 0 <= i < |starts| && starts[i] >= request
  }

  /** Some request was made after `from` and no later than `until`. */
  ghost predicate AskedBetween(requests: seq<nat>, from: int, until: nat) {
    exists i :: 0 <= i < |requests| && from < requests[i] <= until
  }

  /** When start number i was preceded by another, if it was. */
  function Before(starts: seq<nat>, i: nat): int
    requires i <= |starts|
  {
    if i == 0 then -1 else starts[i - 1]
  }

  function LastStart(s: State): int {
    Before(s.starts, |s.starts|)
  }

  /** At most one refresh runs, and only in its phase; without a promise nothing is noted. */
  predicate OneAtATime(s: State) {
    s.running == (if s.phase.Refreshing? then 1 else 0) && (s.phase.Idle? ==> !s.requested)
  }

  /** Every request is followed by a start, or noted for the next one. */
  ghost predicate NoneLost(s: State) {
    LastStart(s) < s.now &&
    forall i :: 0 <= i < |s.requests| ==> s.requests[i] < s.now && (s.requests[i] <= LastStart(s) || s.requested)
  }

  /** No refresh starts unasked, and none is noted unasked. */
  ghost predicate AllAsked(s: State) {
    (forall i :: 0 <= i < |s.starts| ==> AskedBetween(s.requests, Before(s.starts, i), s.starts[i])) &&
    (s.requested ==> AskedBetween(s.requests, LastStart(s), s.now))
  }

  ghost predicate Invariant(s: State) {
    OneAtATime(s) && NoneLost(s) && AllAsked(s)
  }

  lemma AskedGrows(requests: seq<nat>, more: seq<nat>, from: int, until: nat, later: nat)
    requires AskedBetween(requests, from, until) && until <= later
    ensures AskedBetween(requests + more, from, later)
  {
    var i :| 0 <= i < |requests| && from < requests[i] <= until;
    assert (requests + more)[i] == requests[i];
  }

  /** A request, before anything is done about it. */
  function Noted(s: State): State {
    s.(requests := s.requests + [s.now], requested := true)
  }

  function Tick(s: State): State {
    s.(now := s.now + 1)
  }

  lemma NotedIsAsked(s: State)
    requires NoneLost(s) && AllAsked(s)
    ensures AllAsked(Noted(s))
  {
    var noted := Noted(s);
    assert noted.requests[|s.requests|] == s.now;
    assert AskedBetween(noted.requests, LastStart(noted), noted.now);
    forall i | 0 <= i < |noted.starts|
      ensures AskedBetween(noted.requests, Before(noted.starts, i), noted.starts[i])
    {
      assert AskedBetween(s.requests, Before(s.starts, i), s.starts[i]);
      AskedGrows(s.requests, [s.now], Before(s.starts, i), s.starts[i], s.starts[i]);
    }
  }

  lemma BeginIsAsked(s: State)
    requires AllAsked(s) && s.requested
    ensures AllAsked(Tick(Begin(s)))
  {
    var next := Tick(Begin(s));
    forall i | 0 <= i < |next.starts|
      ensures AskedBetween(next.requests, Before(next.starts, i), next.starts[i])
    {
      if i < |s.starts| {
        assert next.starts[i] == s.starts[i] && Before(next.starts, i) == Before(s.starts, i);
        assert AskedBetween(s.requests, Before(s.starts, i), s.starts[i]);
      } else {
        assert next.starts[i] == s.now && Before(next.starts, i) == LastStart(s);
      }
    }
  }

  lemma TickIsAsked(s: State)
    requires AllAsked(s)
    ensures AllAsked(Tick(s))
  {
    forall i | 0 <= i < |s.starts|
      ensures AskedBetween(s.requests, Before(s.starts, i), s.starts[i])
    {
    }
    if s.requested {
      AskedGrows(s.requests, [], LastStart(s), s.now, s.now + 1);
      assert s.requests + [] == s.requests;
    }
  }

  lemma StepIsAsked(s: State, e: Event)
    requires Invariant(s) && Enabled(s, e)
    ensures AllAsked(Step(s, e))
  {
    hide AskedBetween, NoneLost;
    match e
    case Request =>
      NotedIsAsked(s);
      if s.phase.Idle? { BeginIsAsked(Noted(s)); } else { TickIsAsked(Noted(s)); }
    case RefreshSucceeds =>
      var done := s.(running := s.running - 1);
      if s.requested { BeginIsAsked(done); } else { TickIsAsked(done); }
    case RefreshFails => TickIsAsked(s);
    case FailureRecorded => TickIsAsked(s);
    case FinallyRuns =>
      var cleared := s.(phase := Idle);
      if s.requested { BeginIsAsked(cleared); } else { TickIsAsked(cleared); }
    case WaitBegins => TickIsAsked(s);
    case WaitResumes => TickIsAsked(s);
  }

  lemma StepLosesNone(s: State, e: Event)
    requires OneAtATime(s) && NoneLost(s) && Enabled(s, e)
    ensures OneAtATime(Step(s, e)) && NoneLost(Step(s, e))
  {
    var next := Step(s, e);
    assert forall i :: 0 <= i < |s.requests| ==> next.requests[i] == s.requests[i];
  }

  lemma StepKeeps(s: State, e: Event)
    requires Invariant(s) && Enabled(s, e)
    ensures Invariant(Step(s, e))
  {
    StepIsAsked(s, e);
    StepLosesNone(s, e);
  }

  lemma {:induction false} RunKeeps(s: State, run: seq<Event>)
    requires Invariant(s) && Possible(s, run)
    ensures Invariant(After(s, run))
    decreases |run|
  {
    if run == [] {
    } else {
      StepKeeps(s, run[0]);
      RunKeeps(Step(s, run[0]), run[1..]);
    }
  }

  lemma InvariantMeans(s: State)
    requires Invariant(s)
    ensures s.running <= 1 && forall r <- s.requests :: Served(s.starts, r) || s.requested
    ensures forall i :: 0 <= i < |s.starts| ==> AskedBetween(s.requests, Before(s.starts, i), s.starts[i])
  {
    hide AskedBetween;
    forall r | r in s.requests
      ensures Served(s.starts, r) || s.requested
    {
      var i :| 0 <= i < |s.requests| && s.requests[i] == r;
      if r <= LastStart(s) { assert s.starts[|s.starts| - 1] >= r; }
    }
  }

  /** Whatever the interleaving of requests, successes and failures: refreshes never overlap,
      none starts without a request made since the previous start, and a request that is not
      yet followed by a start is noted. */
  lemma NoRequestIsLost(run: seq<Event>)
    requires Possible(INITIAL, run)
    ensures After(INITIAL, run).running <= 1
    ensures forall r <- After(INITIAL, run).requests ::
              Served(After(INITIAL, run).starts, r) || After(INITIAL, run).requested
    ensures forall i :: 0 <= i < |After(INITIAL, run).starts| ==>
              AskedBetween(After(INITIAL, run).requests, Before(After(INITIAL, run).starts, i),
                           After(INITIAL, run).starts[i])
  {
    RunKeeps(INITIAL, run);
    hide *;
    InvariantMeans(After(INITIAL, run));
  }

  // ---------- A noted request is served while others keep coming ----------

  predicate IsRefreshEvent(e: Event) {
    e.RefreshSucceeds? || e.RefreshFails? || e.FailureRecorded? || e.FinallyRuns?
  }

  function RefreshEvents(run: seq<Event>): nat {
    if run == [] then 0 else (if IsRefreshEvent(run[0]) then 1 else 0) + RefreshEvents(run[1..])
  }

  /** Refresh events until a noted request is served, at most. */
  function UntilServed(s: State): nat {
    match s.phase
    case Idle => 0
    case Refreshing => 3
    case Recording => 2
    case Settling => 1
  }

  lemma {:induction false} StartsGrow(s: State, run: seq<Event>)
    requires Possible(s, run)
    ensures s.starts <= After(s, run).starts && s.now <= After(s, run).now
    ensures forall i :: |s.starts| <= i < |After(s, run).starts| ==> After(s, run).starts[i] >= s.now
    decreases |run|
  {
    if run == [] {
    } else {
      StartsGrow(Step(s, run[0]), run[1..]);
    }
  }

  /** What one step does to a noted request: it is served, or still noted and one refresh event
      closer, or untouched by an event that is none. */
  lemma StepNearsService(s: State, e: Event)
    requires Invariant(s) && s.requested && Enabled(s, e)
    ensures var next := Step(s, e);
            |next.starts| > |s.starts| ||
            (next.requested && next.starts == s.starts &&
             UntilServed(next) + (if IsRefreshEvent(e) then 1 else 0) <= UntilServed(s))
  {
  }

  lemma {:induction false} NotedIsServed(s: State, run: seq<Event>)
    requires Invariant(s) && s.requested && Possible(s, run) && RefreshEvents(run) >= UntilServed(s)
    ensures |After(s, run).starts| > |s.starts|
    decreases |run|
  {
    if run == [] {
    } else {
      var next := Step(s, run[0]);
      StepKeeps(s, run[0]);
      StepNearsService(s, run[0]);
      if |next.starts| > |s.starts| {
        StartsGrow(next, run[1..]);
      } else {
        NotedIsServed(next, run[1..]);
      }
    }
  }

  /** Every request is followed by a start, whatever comes in between: after three further
      events of the refresh at the latest, no matter how many more requests are made. */
  lemma EveryRequestIsServed(before: seq<Event>, more: seq<Event>)
    requires Possible(INITIAL, before) && Possible(After(INITIAL, before), more)
    requires RefreshEvents(more) >= 3 || !After(INITIAL, before).requested
    ensures var s := After(INITIAL, before);
            forall r <- s.requests :: Served(After(s, more).starts, r)
  {
    hide AskedBetween, AllAsked, After, Possible;
    RunKeeps(INITIAL, before);
    var s := After(INITIAL, before);
    var t := After(s, more);
    StartsGrow(s, more);
    if s.requested { NotedIsServed(s, more); }
    forall r | r in s.requests
      ensures Served(t.starts, r)
    {
      var i :| 0 <= i < |s.requests| && s.requests[i] == r;
      var last := if r <= LastStart(s) then |s.starts| - 1 else |s.starts|;
      assert t.starts[last] >= r;
    }
  }

  // ---------- In which order things happen ----------

  /** An event of the refresh leaves nothing but one kind of event to follow, or two: the failure
      is recorded before the promise settles, and a success with nothing noted settles it. */
  predicate MayFollow(e: Event, noted: bool, next: Event) {
    match e
    case RefreshFails => next == FailureRecorded
    case FailureRecorded => next == FinallyRuns
    case RefreshSucceeds => if noted then next in {RefreshSucceeds, RefreshFails} else next == FinallyRuns
    case _ => next in {RefreshSucceeds, RefreshFails}
  }

  lemma {:induction false} QuietKeepsPhase(s: State, run: seq<Event>)
    requires Possible(s, run) && !s.phase.Idle? && forall e <- run :: !IsRefreshEvent(e)
    ensures After(s, run).phase == s.phase
    decreases |run|
  {
    if run == [] {
    } else {
      assert run[0] in run && !IsRefreshEvent(run[0]);
      QuietKeepsPhase(Step(s, run[0]), run[1..]);
    }
  }

  /** What comes next of the refresh, whatever requests and looks are made in between. */
  lemma RefreshGoesOn(s: State, e: Event, quiet: seq<Event>, next: Event)
    requires Invariant(s) && Enabled(s, e) && (IsRefreshEvent(e) || (e.Request? && s.phase.Idle?))
    requires Possible(Step(s, e), quiet) && (forall x <- quiet :: !IsRefreshEvent(x)) && IsRefreshEvent(next)
    requires !Step(s, e).phase.Idle? && Enabled(After(Step(s, e), quiet), next)
    ensures MayFollow(e, s.requested, next)
  {
    QuietKeepsPhase(Step(s, e), quiet);
  }

  /** The wait goes on exactly when the finally handler of its promise has run, even if that has
      started another refresh. */
  lemma WaitResumesAfterFinally(s: State, e: Event, run: seq<Event>)
    requires Enabled(s, e) && e in {WaitBegins, WaitResumes} && !s.phase.Idle?
    requires Possible(Step(s, e), run) && WaitResumes !in run
    ensures Enabled(After(Step(s, e), run), WaitResumes) <==> FinallyRuns in run
  {
    Awaits(Step(s, e), run, s.promise);
  }

  lemma {:induction false} Awaits(s: State, run: seq<Event>, promise: nat)
    requires s.waiter == Waiting(promise) && promise <= s.promise && Possible(s, run) && WaitResumes !in run
    ensures Enabled(After(s, run), WaitResumes) <==> Settled(s, promise) || FinallyRuns in run
    decreases |run|
  {
    if run == [] {
    } else {
      assert run == [run[0]] + run[1..];
      Awaits(Step(s, run[0]), run[1..], promise);
    }
  }

  // ---------- The shutdown wait ----------

  /** Whatever the waiter awaited and whatever happened between its looks: at the step in which
      it returns nothing is noted, no refresh runs, and every request was followed by a start. */
  lemma WaitReturnsQuiet(run: seq<Event>, e: Event)
    requires Possible(INITIAL, run) && Enabled(After(INITIAL, run), e)
    requires !After(INITIAL, run).waiter.Returned? && Step(After(INITIAL, run), e).waiter.Returned?
    ensures var s := Step(After(INITIAL, run), e);
            s.phase.Idle? && !s.requested && s.running == 0 && forall r <- s.requests :: Served(s.starts, r)
  {
    RunKeeps(INITIAL, run);
    NoRequestIsLost(run);
  }

  /** Steps left to the refresh, should no request come. */
  function StepsLeft(s: State): nat {
    match s.phase
    case Idle => 0
    case Refreshing => if s.requested then 6 else 3
    case Recording => if s.requested then 5 else 2
    case Settling => if s.requested then 4 else 1
  }

  /** Looks left to the waiter: one that returns, one if its promise is not the present one, and
      one if a noted request will bring another promise. */
  function LooksLeft(s: State): nat {
    match s.waiter
    case Returned => 0
    case NotWaiting => 2 + (if s.requested then 1 else 0)
    case Waiting(promise) =>
      1 + (if promise < s.promise && !s.phase.Idle? then 1 else 0) + (if s.requested then 1 else 0)
  }

  lemma StepLowers(s: State, e: Event)
    requires Invariant(s) && Enabled(s, e) && !e.Request?
    ensures StepsLeft(Step(s, e)) + LooksLeft(Step(s, e)) < StepsLeft(s) + LooksLeft(s) <= 9
    ensures |Step(s, e).starts| + (if Step(s, e).requested then 1 else 0) == |s.starts| + (if s.requested then 1 else 0)
  {
  }

  /** Without further requests at most one more refresh starts, and only if one is noted, and
      the run is over within nine steps. */
  lemma {:induction false} RequestsStop(s: State, run: seq<Event>)
    requires Invariant(s) && Possible(s, run) && forall e <- run :: !e.Request?
    ensures |run| <= StepsLeft(s) + LooksLeft(s)
    ensures |After(s, run).starts| + (if After(s, run).requested then 1 else 0)
         == |s.starts| + (if s.requested then 1 else 0)
    decreases |run|
  {
    if run == [] {
    } else {
      StepKeeps(s, run[0]);
      StepLowers(s, run[0]);
      RequestsStop(Step(s, run[0]), run[1..]);
    }
  }

  predicate Stuck(s: State) {
    forall e :: Enabled(s, e) ==> e.Request?
  }

  /** A run that cannot go on without a request is one whose wait has returned. */
  lemma OnlyReturnedIsStuck(s: State)
    requires Invariant(s)
    ensures Stuck(s) <==> s.phase.Idle? && s.waiter.Returned?
  {
    if Stuck(s) {
      assert !Enabled(s, RefreshFails) && !Enabled(s, FailureRecorded) && !Enabled(s, FinallyRuns);
      assert !Enabled(s, WaitBegins) && !Enabled(s, WaitResumes);
    }
  }

  /** So once requests stop the wait returns, on every run that goes on while it can. */
  lemma WaitReturns(s: State, run: seq<Event>)
    requires Invariant(s) && Possible(s, run) && (forall e <- run :: !e.Request?) && Stuck(After(s, run))
    ensures After(s, run).waiter.Returned? && |run| <= 9
  {
    RunKeeps(s, run);
    OnlyReturnedIsStuck(After(s, run));
    RequestsStop(s, run);
    if run == [] {
    } else {
      StepLowers(s, run[0]);
    }
  }
}
