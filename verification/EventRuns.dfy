/**
 Events over whole runs: when a waiter can sleep through a signal, where every signal of
 an auto-reset event goes, and that a signal reaches the threads that wait for it.
 */
module EventRuns {
  import opened Numeric
  import opened Threads
  import opened Engine
  import opened ThreadRuns

  predicate WaitsOn(t: Thread, h: U32) {
    t.state == Waiting && t.waitHandle == h
  }

  predicate Alert(y: Sys, i: nat)
    requires i < MAX_THREADS
  {
    var t := y.sched.threads[i];
    t.state == Waiting && IsEvent(t.waitHandle) ==> !y.signalled[t.waitHandle - EVENT_BASE]
  }

  /** No thread waits on an event whose flag is up. */
  ghost predicate NoneForgotten(y: Sys) {
    forall i :: 0 <= i < MAX_THREADS ==> Alert(y, i)
  }

  /** The event to be created starts with its flag up, and a thread waits on its handle already. */
  ghost predicate Overtakes(y: Sys, a: Action) {
    && a.CreateEvent? && a.initial && y.eventNext < MAX_EVENTS
    && exists i :: 0 <= i < MAX_THREADS && WaitsOn(y.sched.threads[i], EVENT_BASE + y.eventNext)
  }

  // ----- lost wake-ups -----

  /** A yield leaves no thread waiting that was not, except the one that yields. */
  lemma YieldWaiters(s: Sched, st: State, i: nat, h: U32)
    requires OneRuns(s) && s.current >= 0 && i < MAX_THREADS && (st == Ready || st == Waiting)
    requires WaitsOn(Yielded(s, st).threads[i], h)
    ensures if i == s.current then st == Waiting && s.threads[i].waitHandle == h else WaitsOn(s.threads[i], h)
  {
    hide Pick, Saved, Loaded;
  }

  lemma SwitchWaiters(s: Sched, i: nat, h: U32)
    requires i < MAX_THREADS && WaitsOn(Switched(s).threads[i], h)
    ensures WaitsOn(s.threads[i], h)
  {
    hide Pick, Loaded;
  }

  lemma SpawnWaiters(y: Sys, start: U32, param: U32, suspended: bool, teb: U32, i: nat, h: U32)
    requires Sane(y.sched) && i < MAX_THREADS
    requires WaitsOn(Spawned(y, start, param, suspended, teb).sched.threads[i], h)
    ensures WaitsOn(y.sched.threads[i], h)
  {
    if FirstFree(y.sched.threads, 0) >= 0 {
      CreatedKeeps(y.sched, start, param, suspended);
      hide Numbered, OneRuns, FirstFree, Created, Given;
      GivenKeepsWaits(y.(sched := Created(y.sched, start, param, suspended)), y.sched.nextHandle, teb, i, h);
    }
  }

  lemma GivenKeepsWaits(y: Sys, handle: U32, teb: U32, i: nat, h: U32)
    requires i < MAX_THREADS
    ensures WaitsOn(Given(y, handle, teb).sched.threads[i], h) <==> WaitsOn(y.sched.threads[i], h)
  {
    hide Locate;
  }

  /** Who starts to wait: only the thread that calls, and only on an object that is not signalled. */
  lemma NewWaiters(y: Sys, a: Action, i: nat, h: U32)
    requires Sane(y.sched) && Enabled(y, a) && i < MAX_THREADS && WaitsOn(Step(y, a).sched.threads[i], h)
    ensures WaitsOn(y.sched.threads[i], h)
            || (a == Wait(h, INFINITE) && !Signalled(y, h) && Step(y, a).signalled == y.signalled)
            || (a.AwaitCompletion? && h == IOCP_HANDLE)
    ensures a == SetEvent(h) ==> !WaitsOn(Step(y, a).sched.threads[i], h)
  {
    hide Signalled, Numbered, Yielded, Switched, Spawned, Locate;
    match a
    case Spawn(start, param, suspended, teb) => SpawnWaiters(y, start, param, suspended, teb, i, h);
    case Yield => YieldWaiters(y.sched, Ready, i, h);
    case Wait(handle, timeout) =>
      if !Signalled(y, handle) && timeout != 0 {
        AwaitKeeps(y.sched, handle, timeout);
        YieldWaiters(Awaiting(y.sched, handle, timeout), WaitState(timeout), i, h);
      }
    case AwaitCompletion(limit) =>
      AwaitKeeps(y.sched, IOCP_HANDLE, limit);
      YieldWaiters(Awaiting(y.sched, IOCP_HANDLE, limit), Waiting, i, h);
    case Exit(code) =>
      SwitchWaiters(Exiting(y.sched, code), i, h);
    case Switch => SwitchWaiters(y.sched, i, h);
    case _ =>
  }

  /** Which flags an action can raise. */
  lemma NewFlags(y: Sys, a: Action, e: nat)
    requires e < MAX_EVENTS && Step(y, a).signalled[e]
    ensures y.signalled[e] || a == SetEvent(EVENT_BASE + e) || (a.CreateEvent? && a.initial && e == y.eventNext)
  {
    hide Signalled, Locate, FirstFree, Yielded, Switched, Pick;
  }

  lemma ForgottenByStep(y: Sys, a: Action)
    requires Overtakes(y, a)
    ensures !NoneForgotten(Step(y, a))
  {
    var i :| 0 <= i < MAX_THREADS && WaitsOn(y.sched.threads[i], EVENT_BASE + y.eventNext);
    assert !Alert(Step(y, a), i);
  }

  lemma StaysAlert(y: Sys, a: Action, i: nat)
    requires Sane(y.sched) && Enabled(y, a) && NoneForgotten(y) && !Overtakes(y, a) && i < MAX_THREADS
    ensures Alert(Step(y, a), i)
  {
    hide Step, Locate, Sane, Enabled;
    var t := Step(y, a).sched.threads[i];
    if t.state == Waiting && IsEvent(t.waitHandle) {
      var e := t.waitHandle - EVENT_BASE;
      NewWaiters(y, a, i, t.waitHandle);
      if Step(y, a).signalled[e] {
        NewFlags(y, a, e);
      }
      assert Alert(y, i);
    }
  }

  /** A signalled event with a waiter appears exactly when an event is created with its flag up on a
      handle that a thread waits on already; every other action keeps the property. */
  lemma ForgottenExactly(y: Sys, a: Action)
    requires Sane(y.sched) && Enabled(y, a) && NoneForgotten(y)
    ensures NoneForgotten(Step(y, a)) <==> !Overtakes(y, a)
  {
    if Overtakes(y, a) {
      ForgottenByStep(y, a);
    } else {
      forall i | 0 <= i < MAX_THREADS
        ensures Alert(Step(y, a), i)
      {
        StaysAlert(y, a, i);
      }
    }
  }

  /** The property at every point of a run ... */
  ghost predicate NeverForgotten(y: Sys, run: seq<Action>)
    decreases |run|
  {
    NoneForgotten(y) && (run == [] || NeverForgotten(Step(y, run[0]), run[1..]))
  }

  /** ... and a run in which no event is created under its waiters. */
  ghost predicate Orderly(y: Sys, run: seq<Action>)
    decreases |run|
  {
    run == [] || (!Overtakes(y, run[0]) && Orderly(Step(y, run[0]), run[1..]))
  }

  lemma {:induction false} NeverForgottenExactly(y: Sys, run: seq<Action>)
    requires Sane(y.sched) && Possible(y, run) && NoneForgotten(y)
    ensures NeverForgotten(y, run) <==> Orderly(y, run)
    decreases |run|
  {
    if run != [] {
      ForgottenExactly(y, run[0]);
      if !Overtakes(y, run[0]) {
        StepKeeps(y, run[0]);
        NeverForgottenExactly(Step(y, run[0]), run[1..]);
      }
    }
  }

  /** The unlimited waits of the run name only handles of events that exist by then. */
  predicate Careful(y: Sys, run: seq<Action>)
    decreases |run|
  {
    run == [] ||
    (&& (run[0].Wait? && run[0].timeout == INFINITE && IsEvent(run[0].handle) ==>
           run[0].handle - EVENT_BASE < y.eventNext)
     && Careful(Step(y, run[0]), run[1..]))
  }

  predicate Known(y: Sys, i: nat)
    requires i < MAX_THREADS
  {
    var t := y.sched.threads[i];
    t.state == Waiting && IsEvent(t.waitHandle) ==> t.waitHandle - EVENT_BASE < y.eventNext
  }

  ghost predicate WaitersKnown(y: Sys) {
    forall i :: 0 <= i < MAX_THREADS ==> Known(y, i)
  }

  lemma NextGrows(y: Sys, a: Action)
    ensures Step(y, a).eventNext >= y.eventNext
  {
    hide Signalled, Locate, FirstFree, Pick;
  }

  lemma KnownKeeps(y: Sys, a: Action)
    requires Sane(y.sched) && Enabled(y, a) && WaitersKnown(y)
    requires a.Wait? && a.timeout == INFINITE && IsEvent(a.handle) ==> a.handle - EVENT_BASE < y.eventNext
    ensures WaitersKnown(Step(y, a)) && !Overtakes(y, a)
  {
    NextGrows(y, a);
    hide Step;
    forall i | 0 <= i < MAX_THREADS
      ensures Known(Step(y, a), i)
      ensures y.eventNext < MAX_EVENTS ==> !WaitsOn(y.sched.threads[i], EVENT_BASE + y.eventNext)
    {
      assert Known(y, i);
      var t := Step(y, a).sched.threads[i];
      if t.state == Waiting && IsEvent(t.waitHandle) {
        NewWaiters(y, a, i, t.waitHandle);
      }
    }
  }

  lemma {:induction false} CarefulIsOrderly(y: Sys, run: seq<Action>)
    requires Sane(y.sched) && Possible(y, run) && WaitersKnown(y) && Careful(y, run)
    ensures Orderly(y, run)
    decreases |run|
  {
    if run != [] {
      StepKeeps(y, run[0]);
      KnownKeeps(y, run[0]);
      CarefulIsOrderly(Step(y, run[0]), run[1..]);
    }
  }

  /** From boot on, a program that waits only on events it has created never sleeps through a signal. */
  lemma NoLostWakeUp(teb: U32, core: Core, run: seq<Action>)
    requires Possible(Booted(teb, core), run) && Careful(Booted(teb, core), run)
    ensures NeverForgotten(Booted(teb, core), run)
  {
    var y := Booted(teb, core);
    BootedSane(teb, core);
    assert NoneForgotten(y) && WaitersKnown(y);
    CarefulIsOrderly(y, run);
    NeverForgottenExactly(y, run);
  }

  /** Without that care it can: the main thread waits on the first handle, and a second thread then
      creates that event with its flag up. */
  lemma ForgottenWaiter(teb: U32, core: Core)
    ensures var run := [Spawn(0x40_1000, 0, false, 0), Wait(EVENT_BASE, INFINITE), CreateEvent(false, true)];
      Possible(Booted(teb, core), run) && !NeverForgotten(Booted(teb, core), run)
  {
    var spawn, wait, create := Spawn(0x40_1000, 0, false, 0), Wait(EVENT_BASE, INFINITE), CreateEvent(false, true);
    var y := Booted(teb, core);
    var y1 := Step(y, spawn);
    var y2 := Step(y1, wait);
    BootedSane(teb, core);
    CreatedKeeps(y.sched, 0x40_1000, 0, false);
    assert y1 == y.(sched := y1.sched) && y1.sched.current == 0 && y1.sched.threads[1].state == Ready;
    StepKeeps(y, spawn);
    WaitEarly(y1);
    ForgottenByStep(y2, create);
    var run := [spawn, wait, create];
    assert run[1..] == [wait, create] && run[1..][1..] == [create] && run[1..][1..][1..] == [];
    hide Step, NoneForgotten, Booted, Enabled;
    RunOfThree(y, spawn, wait, create);
  }

  lemma WaitEarly(y: Sys)
    requires Sane(y.sched) && y.sched.current == 0 && y.sched.threads[1].state == Ready
    requires y.eventNext == 0 && !y.signalled[0]
    ensures var z := Step(y, Wait(EVENT_BASE, INFINITE));
      z.sched.current >= 0 && z.sched.current < MAX_THREADS && Overtakes(z, CreateEvent(false, true))
  {
    LocateForeign(y.sched, EVENT_BASE);
    hide Locate;
    AwaitKeeps(y.sched, EVENT_BASE, INFINITE);
    var s := Awaiting(y.sched, EVENT_BASE, INFINITE);
    ScanCloser(Saving(s, Waiting), 1);
    hide Pick, Saved, Loaded;
    var z := Step(y, Wait(EVENT_BASE, INFINITE));
    assert Pick(Saving(s, Waiting)) != 0;
    assert WaitsOn(z.sched.threads[0], EVENT_BASE);
  }

  lemma RunOfThree(y: Sys, a: Action, b: Action, c: Action)
    requires Enabled(y, a) && Enabled(Step(y, a), b) && Enabled(Step(Step(y, a), b), c)
    requires !NoneForgotten(Step(Step(Step(y, a), b), c))
    ensures Possible(y, [a, b, c]) && !NeverForgotten(y, [a, b, c])
  {
    hide Step, NoneForgotten, Enabled;
    var run := [a, b, c];
    assert run[1..] == [b, c] && run[1..][1..] == [c] && run[1..][1..][1..] == [];
    var y1, y2 := Step(y, a), Step(Step(y, a), b);
    assert Possible(y2, [c]) && !NeverForgotten(y2, [c]) by {
      assert [c][1..] == [];
      assert !NeverForgotten(Step(y2, c), []);
    }
    assert Possible(y1, [b, c]) && !NeverForgotten(y1, [b, c]) by {
      assert [b, c][1..] == [c];
    }
  }

  /** No thread has the handle of an event. */
  lemma LocateForeign(s: Sched, h: U32)
    requires Numbered(s) && IsEvent(h)
    ensures Locate(s.threads, h, 0) < 0
  {
    assert forall i :: 0 <= i < MAX_THREADS ==> s.threads[i].state == Free || s.threads[i].handle == HandleOf(i);
  }

  // ----- where signals go -----

  function Bit(b: bool): nat {
    if b then 1 else 0
  }

  /** A wait that the flag of the event satisfies: the lone thread's answer is not one. */
  predicate Takes(y: Sys, a: Action, e: nat)
    requires e < MAX_EVENTS
  {
    a.Wait? && a.handle == EVENT_BASE + e && WaitVerdict(y, a.handle, a.timeout).Satisfied?
  }

  function Taken(y: Sys, run: seq<Action>, e: nat): nat
    requires e < MAX_EVENTS
    decreases |run|
  {
    if run == [] then 0 else Bit(Takes(y, run[0], e)) + Taken(Step(y, run[0]), run[1..], e)
  }

  function Sets(run: seq<Action>, e: nat): nat
    decreases |run|
  {
    if run == [] then 0 else Bit(run[0].SetEvent? && run[0].event == EVENT_BASE + e) + Sets(run[1..], e)
  }

  /** Signals that meet a flag that is up already, and signals that a reset takes back */
  function Wasted(y: Sys, run: seq<Action>, e: nat): nat
    requires e < MAX_EVENTS
    decreases |run|
  {
    if run == [] then 0
    else Bit(y.signalled[e] && (run[0].SetEvent? || run[0].ResetEvent?) && run[0].event == EVENT_BASE + e)
         + Wasted(Step(y, run[0]), run[1..], e)
  }

  lemma OneWait(y: Sys, h: U32, timeout: U32, e: nat)
    requires Sane(y.sched) && e < MAX_EVENTS && !y.manual[e]
    ensures Waited(y, h, timeout).manual == y.manual
    ensures Bit(Takes(y, Wait(h, timeout), e)) + Bit(Waited(y, h, timeout).signalled[e]) == Bit(y.signalled[e])
  {
    WaitFlags(y, h, timeout);
    ConsumedFlag(y, h, e);
    if h == EVENT_BASE + e {
      EventSignalled(y, e);
    }
    hide Waited, Consumed, Signalled, WaitVerdict, Sane;
  }

  lemma WaitFlags(y: Sys, h: U32, timeout: U32)
    ensures WaitVerdict(y, h, timeout).Satisfied? <==> Signalled(y, h)
    ensures Waited(y, h, timeout).manual == y.manual
    ensures Waited(y, h, timeout).signalled == if Signalled(y, h) then Consumed(y, h).signalled else y.signalled
  {
    hide Signalled, Yielded, Pick, Saving, Awaiting, WaitState;
  }

  lemma ConsumedFlag(y: Sys, h: U32, e: nat)
    requires e < MAX_EVENTS && !y.manual[e]
    ensures Consumed(y, h).signalled[e] == (y.signalled[e] && h != EVENT_BASE + e)
  {
  }

  /** No thread has the handle of an event. */
  lemma EventSignalled(y: Sys, e: nat)
    requires Sane(y.sched) && e < MAX_EVENTS
    ensures Signalled(y, EVENT_BASE + e) == y.signalled[e]
  {
    LocateForeign(y.sched, EVENT_BASE + e);
    hide Locate, OneRuns, Numbered;
  }

  lemma OneSignal(y: Sys, a: Action, e: nat)
    requires Sane(y.sched) && Enabled(y, a) && e < MAX_EVENTS && e < y.eventNext && !y.manual[e]
    ensures !Step(y, a).manual[e]
    ensures Bit(Takes(y, a, e)) + Bit(y.signalled[e] && (a.SetEvent? || a.ResetEvent?) && a.event == EVENT_BASE + e)
            + Bit(Step(y, a).signalled[e])
            == Bit(y.signalled[e]) + Bit(a.SetEvent? && a.event == EVENT_BASE + e)
  {
    match a
    case Wait(handle, timeout) =>
      OneWait(y, handle, timeout, e);
      hide Waited, Sane, WaitVerdict;
    case SetEvent(event) =>
      FlaggedAt(y, event, true, e);
      hide Wakened, Flagged, Sane;
    case ResetEvent(event) =>
      FlaggedAt(y, event, false, e);
      hide Flagged, Sane;
    case _ =>
      FlagsStay(y, a, e);
      hide Step, Sane;
  }

  lemma FlaggedAt(y: Sys, h: U32, on: bool, e: nat)
    requires e < MAX_EVENTS
    ensures Flagged(y, h, on).signalled[e] == if h == EVENT_BASE + e then on else y.signalled[e]
    ensures Flagged(y, h, on).manual == y.manual
  {
  }

  /** Nothing but a wait, a signal and a reset moves the flag of an event that exists. */
  lemma FlagsStay(y: Sys, a: Action, e: nat)
    requires e < MAX_EVENTS && e < y.eventNext && !a.Wait? && !a.SetEvent? && !a.ResetEvent?
    ensures Step(y, a).signalled[e] == y.signalled[e] && Step(y, a).manual[e] == y.manual[e]
  {
    hide Locate, FirstFree, Created, Yielded, Switched, Awaiting, Wakened, Left;
  }

  /** Conservation for an auto-reset event: every signal, and the flag at the start, is taken by one
      satisfied wait, wasted, or still there at the end. */
  lemma {:induction false} SignalsConserved(y: Sys, run: seq<Action>, e: nat)
    requires Sane(y.sched) && Possible(y, run) && e < MAX_EVENTS && e < y.eventNext && !y.manual[e]
    ensures Taken(y, run, e) + Wasted(y, run, e) + Bit(Run(y, run).signalled[e]) == Bit(y.signalled[e]) + Sets(run, e)
    decreases |run|
  {
    if run != [] {
      StepKeeps(y, run[0]);
      NextGrows(y, run[0]);
      OneSignal(y, run[0], e);
      SignalsConserved(Step(y, run[0]), run[1..], e);
    }
  }

  /** So it never satisfies more waits than it got signals. */
  lemma WaitsWithinSignals(y: Sys, run: seq<Action>, manual: bool, initial: bool)
    requires Sane(y.sched) && Enabled(y, CreateEvent(manual, initial)) && y.eventNext < MAX_EVENTS && !manual
    requires Possible(Step(y, CreateEvent(manual, initial)), run)
    ensures Taken(Step(y, CreateEvent(manual, initial)), run, y.eventNext) <= Bit(initial) + Sets(run, y.eventNext)
  {
    StepKeeps(y, CreateEvent(manual, initial));
    SignalsConserved(Step(y, CreateEvent(manual, initial)), run, y.eventNext);
  }

  /** A manual-reset event that is set satisfies every wait until it is reset. */
  lemma {:induction false} ManualStays(y: Sys, run: seq<Action>, e: nat, timeout: U32)
    requires Sane(y.sched) && Possible(y, run) && e < MAX_EVENTS && e < y.eventNext && y.manual[e] && y.signalled[e]
    requires ResetEvent(EVENT_BASE + e) !in run
    ensures Run(y, run).signalled[e]
    ensures WaitVerdict(Run(y, run), EVENT_BASE + e, timeout) == Satisfied
    decreases |run|
  {
    if run != [] {
      StepKeeps(y, run[0]);
      NextGrows(y, run[0]);
      ManualStep(y, run[0], e);
      ManualStays(Step(y, run[0]), run[1..], e, timeout);
    }
  }

  lemma ManualStep(y: Sys, a: Action, e: nat)
    requires e < MAX_EVENTS && e < y.eventNext && y.manual[e] && y.signalled[e] && a != ResetEvent(EVENT_BASE + e)
    ensures Step(y, a).manual[e] && Step(y, a).signalled[e]
  {
    hide Locate, FirstFree, Yielded, Switched, Pick, Wakened, Signalled;
  }

  // ----- a signal reaches its waiters -----

  /** A thread that waits on an event when it is set is passed over by a bounded number of scans only. */
  lemma SignalReaches(y: Sys, h: U32, run: seq<Action>, i: nat)
    requires Sane(y.sched) && Enabled(y, SetEvent(h)) && i < MAX_THREADS && WaitsOn(y.sched.threads[i], h)
    requires Possible(Step(y, SetEvent(h)), run) && Passed(Step(y, SetEvent(h)), run, i)
    ensures ExitCount(run) == 0 ==> ScanCount(Step(y, SetEvent(h)), run) < MAX_THREADS
    ensures ScanCount(Step(y, SetEvent(h)), run) < MAX_THREADS * (1 + MAX_THREADS)
  {
    StepKeeps(y, SetEvent(h));
    BoundedWaiting(Step(y, SetEvent(h)), run, i);
    LiveBound(Step(y, SetEvent(h)).sched);
  }
}
