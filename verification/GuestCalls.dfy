/**
 What a guest program can rely on from its calls, told in terms of threads and flags: how a wait
 comes back, where a new thread starts, and what stays as it is until somebody changes it.
 */
module GuestCalls {
  import opened Numeric
  import opened Patching
  import opened Threads
  import opened Engine
  import opened ThreadRuns
  import opened EventRuns

  // ----- waits -----

  ghost predicate AnotherReady(s: Sched) {
    exists j :: 0 <= j < MAX_THREADS && j != s.current && s.threads[j].state == Ready
  }

  /** The handle names an event whose flag is up, or a thread that has exited. */
  ghost predicate Up(y: Sys, h: U32) {
    || (0x200 <= h < 0x300 && y.signalled[h - 0x200])
    || exists i :: 0 <= i < MAX_THREADS && y.sched.threads[i].handle == h && y.sched.threads[i].state == Exited
  }

  lemma SignalledIs(y: Sys, h: U32)
    requires Numbered(y.sched)
    ensures Signalled(y, h) <==> Up(y, h)
  {
    if i :| 0 <= i < MAX_THREADS && y.sched.threads[i].handle == h && y.sched.threads[i].state == Exited {
      LocateNumbered(y.sched, i);
    }
    hide Locate;
  }

  /** How far behind `start` a scan meets slot `i` */
  function Behind(start: nat, i: nat): (d: nat)
    requires i < MAX_THREADS && start <= MAX_THREADS
    ensures d < MAX_THREADS && (start + d) % MAX_THREADS == i
  {
    if start <= i then i - start else i - start + MAX_THREADS
  }

  /** A scan finds a slot if and only if one is ready. */
  lemma PickFinds(s: Sched)
    requires -1 <= s.current < MAX_THREADS
    ensures Pick(s) >= 0 <==> exists j :: 0 <= j < MAX_THREADS && s.threads[j].state == Ready
  {
    hide FirstReady;
    if j :| 0 <= j < MAX_THREADS && s.threads[j].state == Ready {
      var k := ScanStops(s.threads, ScanFrom(s.current), 0, Behind(ScanFrom(s.current), j));
    }
  }

  lemma ParkedPick(s: Sched, h: U32, timeout: U32)
    requires OneRuns(s) && s.current >= 0
    ensures Pick(Saving(Awaiting(s, h, timeout), WaitState(timeout))) >= 0
            <==> timeout != INFINITE || AnotherReady(s)
  {
    hide Pick, Saved;
    var z := Saving(Awaiting(s, h, timeout), WaitState(timeout));
    PickFinds(z);
    assert forall j :: 0 <= j < MAX_THREADS && j != s.current ==> z.threads[j] == s.threads[j];
    assert z.threads[s.current].state == WaitState(timeout);
  }

  /** How a wait ends. It is answered 258 exactly on a test, without time, of an object that is not
      signalled; 0 if the object is signalled, or if nobody else could run during an unlimited wait. In every
      other case the call does not come back before another turn. */
  lemma WaitAnswers(y: Sys, h: U32, timeout: U32)
    requires Sane(y.sched) && y.sched.current >= 0
    ensures var v := WaitVerdict(y, h, timeout); var returned := !v.Blocked?;
      && (returned && WaitValue(v) == 258 <==> !Up(y, h) && timeout == 0)
      && (returned && WaitValue(v) == 0 <==> Up(y, h) || (timeout == 0xFFFF_FFFF && !AnotherReady(y.sched)))
      && (!returned <==> !Up(y, h) && timeout != 0 && (timeout == 0xFFFF_FFFF ==> AnotherReady(y.sched)))
  {
    SignalledIs(y, h);
    ParkedPick(y.sched, h, timeout);
    hide Signalled, Pick, Saving, Awaiting, AnotherReady, Up;
  }

  /** What a wait leaves behind: a signalled object loses its flag if it is an auto-reset event, and nothing
      else changes; a test changes nothing; otherwise the caller is left waiting for the object, if its wait
      is unlimited and another thread runs, or else ready or running. */
  lemma WaitLeaves(y: Sys, h: U32, timeout: U32)
    requires Sane(y.sched) && y.sched.current >= 0
    ensures var z, i := Waited(y, h, timeout), y.sched.current;
      && (Up(y, h) ==>
            && z.sched == y.sched && z.tls == y.tls && z.manual == y.manual && z.eventNext == y.eventNext
            && forall e | 0 <= e < MAX_EVENTS ::
                 z.signalled[e] == (y.signalled[e] && (h == 0x200 + e ==> y.manual[e])))
      && (!Up(y, h) ==> z == y.(sched := z.sched))
      && (!Up(y, h) && timeout == 0 ==> z == y)
      && (!Up(y, h) && timeout == 0xFFFF_FFFF && AnotherReady(y.sched) ==>
            z.sched.current != i && z.sched.threads[i].state == Waiting && z.sched.threads[i].waitHandle == h)
      && (!Up(y, h) && timeout == 0xFFFF_FFFF && !AnotherReady(y.sched) ==> z.sched.current == i)
      && (!Up(y, h) && timeout != 0 && timeout != 0xFFFF_FFFF ==>
            z.sched.threads[i].state == if z.sched.current == i then Running else Ready)
  {
    SignalledIs(y, h);
    if !Up(y, h) && timeout != 0 {
      ParkedPick(y.sched, h, timeout);
      ParkedLeaves(y.sched, h, timeout);
    }
    hide Signalled, Pick, Yielded, Saving, Awaiting, AnotherReady, Up, Sane;
  }

  lemma ParkedLeaves(s: Sched, h: U32, timeout: U32)
    requires OneRuns(s) && s.current >= 0
    ensures var z := Yielded(Awaiting(s, h, timeout), WaitState(timeout)); var i := s.current;
      && z.threads[i].waitHandle == h
      && z.threads[i].state == (if z.current == i then Running else WaitState(timeout))
      && (timeout == INFINITE ==> (z.current == i <==> !AnotherReady(s)))
  {
    ParkedPick(s, h, timeout);
    hide Pick, Saved, Loaded, AnotherReady;
  }

  // ----- a new thread -----

  /** What a new thread has in its slot */
  function FirstOwn(y: Sys, start: U32, teb: U32): Own
    requires y.sched.count < MAX_THREADS
  {
    var sp := StackTop(y.sched.nextStack);
    Own(Regs([0, 0, 0, 0, sp, sp, 0, 0], start, if teb == 0 then FsOf(y.sched) else teb), y.tls[y.sched.count])
  }

  lemma GivenOwn(y: Sys, handle: U32, teb: U32, slot: nat)
    requires slot < MAX_THREADS && handle != 0 && Locate(y.sched.threads, handle, 0) == slot
    ensures var z := Given(y, handle, teb); var t := y.sched.threads[slot];
      && z.sched.threads[slot].state == t.state && z.sched.count == y.sched.count && z.sched.current == y.sched.current
      && z.tls == y.tls && z.sched.threads[slot].regs == t.regs.(fsBase := if teb == 0 then t.regs.fsBase else teb)
  {
    hide Locate;
  }

  lemma NewOwn(s: Sched, start: U32, param: U32, suspended: bool)
    ensures var sp := StackTop(s.nextStack);
      NewThread(s, start, param, suspended).regs == Regs([0, 0, 0, 0, sp, sp, 0, 0], start, FsOf(s))
  {
    hide StackTop, FsOf;
  }

  lemma SpawnedIs(y: Sys, start: U32, param: U32, suspended: bool, teb: U32)
    requires FirstFree(y.sched.threads, 0) >= 0
    ensures Spawned(y, start, param, suspended, teb)
         == Given(y.(sched := Created(y.sched, start, param, suspended)), y.sched.nextHandle, teb)
  {
    hide FirstFree, Created, Given;
  }

  lemma SpawnedOwn(y: Sys, start: U32, param: U32, suspended: bool, teb: U32)
    requires Sane(y.sched) && y.sched.current >= 0 && y.sched.count < MAX_THREADS
    ensures var z, slot := Spawned(y, start, param, suspended, teb), y.sched.count;
      && Sane(z.sched) && z.sched.count == slot + 1 && z.sched.current == y.sched.current && z.tls == y.tls
      && z.sched.threads[slot].state == (if suspended then Suspended else Ready)
      && OwnOf(z, slot) == FirstOwn(y, start, teb)
  {
    hide FirstFree, Created, NewThread, Locate, StackTop, FsOf, Spawned, Given, Numbered, OneRuns;
    var s, slot := y.sched, y.sched.count;
    var z := Created(s, start, param, suspended);
    SlotLeft(s);
    CreatedKeeps(s, start, param, suspended);
    SpawnKeeps(y, start, param, suspended, teb);
    LocateNumbered(z, slot);
    NewThreadIs(s, start, param, suspended);
    NewOwn(s, start, param, suspended);
    SpawnedIs(y, start, param, suspended, teb);
    NextNamed(s);
    CreatedTls(y, z);
    GivenOwn(y.(sched := z), s.nextHandle, teb, slot);
  }

  lemma CreatedTls(y: Sys, z: Sched)
    ensures y.(sched := z).tls == y.tls && y.(sched := z).sched == z
  {
  }

  lemma NextNamed(s: Sched)
    requires Numbered(s) && s.count < MAX_THREADS
    ensures HandleOf(s.count) == s.nextHandle != 0
  {
  }

  lemma SlotLeft(s: Sched)
    requires Numbered(s) && s.count < MAX_THREADS
    ensures FirstFree(s.threads, 0) >= 0 && s.nextStack + THREAD_STACK < TWO32
  {
    assert s.threads[s.count].state == Free;
  }

  /** A thread with this stack and these numbers is about to run for the first time. */
  ghost predicate AtStart(c: Core, start: U32, param: U32, stack: nat, fsBase: U32, mem: seq<Byte>)
    requires |mem| >= TWO32 + THREAD_STACK
  {
    && c.rip == start && c.fsBase == fsBase
    && c.gpr[4] == c.gpr[5] == stack + 0x10_0000 - 0x100 < TWO32
    && Word(mem, c.gpr[4]) == 0 && Word(mem, c.gpr[4] + 4) == param
    && forall j | 0 <= j < 8 && j != 4 && j != 5 :: c.gpr[j] == 0
  }

  lemma FirstLoaded(y: Sys, start: U32, param: U32, teb: U32, mem: seq<Byte>)
    requires y.sched.count < MAX_THREADS && 0 <= y.sched.current < MAX_THREADS
    requires |mem| >= TWO32 + THREAD_STACK && y.sched.nextStack + THREAD_STACK < TWO32
    ensures AtStart(Loaded(FirstOwn(y, start, teb).regs), start, param, y.sched.nextStack,
                    if teb == 0 then y.sched.threads[y.sched.current].regs.fsBase else teb,
                    StackMade(mem, y.sched.nextStack, param))
  {
    hide StackMade, Word, StackTop;
    StackHolds(mem, y.sched.nextStack, param);
    var sp := StackTop(y.sched.nextStack);
    var c := Loaded(FirstOwn(y, start, teb).regs);
    assert c.gpr == [0, 0, 0, 0, sp, sp, 0, 0];
    hide FirstOwn, Loaded;
  }

  /** A new thread, whenever it is first current: it starts at its address, with ESP and EBP where its stack
      holds the return address 0 below the parameter, the other registers zero, the FS base of its own
      environment block, or of its creator if it has none, and the thread-local values of its slot. */
  lemma ThreadStarts(y: Sys, start: U32, param: U32, suspended: bool, teb: U32, run: seq<Action>, mem: seq<Byte>)
    requires Sane(y.sched) && y.sched.current >= 0 && y.sched.count < MAX_THREADS
    requires var z := Step(y, Spawn(start, param, suspended, teb));
      Possible(z, run) && Away(z, run, y.sched.count) && Run(z, run).sched.current == y.sched.count
    requires |mem| >= TWO32 + THREAD_STACK
    ensures var w := Run(Step(y, Spawn(start, param, suspended, teb)), run);
      && AtStart(w.sched.core, start, param, y.sched.nextStack,
                 if teb == 0 then y.sched.threads[y.sched.current].regs.fsBase else teb,
                 StackMade(mem, y.sched.nextStack, param))
      && w.tls[y.sched.count] == y.tls[y.sched.count]
  {
    hide Run, Away, Possible, Spawned, StackMade, AtStart, FirstOwn, FirstFree;
    var z, slot := Spawned(y, start, param, suspended, teb), y.sched.count;
    SpawnedOwn(y, start, param, suspended, teb);
    SlotLeft(y.sched);
    CurrentInUse(y.sched);
    hide Sane;
    SpawnStep(y, start, param, suspended, teb);
    RunNothing(z, run);
    AwayRun(z, run, slot);
    FirstLoaded(y, start, param, teb, mem);
    FirstTls(y, start, teb);
  }

  lemma CurrentInUse(s: Sched)
    requires Sane(s) && s.current >= 0
    ensures s.current < s.count && s.current < MAX_THREADS
  {
    assert s.threads[s.current].state == Running;
  }

  lemma SpawnStep(y: Sys, start: U32, param: U32, suspended: bool, teb: U32)
    ensures Step(y, Spawn(start, param, suspended, teb)) == Spawned(y, start, param, suspended, teb)
  {
    hide Spawned;
  }

  lemma RunNothing(y: Sys, run: seq<Action>)
    ensures run == [] ==> Run(y, run) == y
  {
  }

  lemma FirstTls(y: Sys, start: U32, teb: U32)
    requires y.sched.count < MAX_THREADS
    ensures FirstOwn(y, start, teb).tls == y.tls[y.sched.count]
  {
    hide StackTop, FsOf;
  }

  // ----- whose turn it is -----

  /** On the way around from behind `c`, slot `j` comes before slot `p`. */
  predicate Between(c: int, j: int, p: int) {
    if c < p then c < j < p else j > c || j < p
  }

  lemma PickTurn(s: Sched)
    requires -1 <= s.current < MAX_THREADS
    ensures var p := Pick(s);
      if p < 0 then forall j | 0 <= j < MAX_THREADS :: s.threads[j].state != Ready
      else
        && s.threads[p].state == Ready
        && forall j | 0 <= j < MAX_THREADS && j != s.current && Between(s.current, j, p) :: s.threads[j].state != Ready
  {
    PickFinds(s);
    var p := Pick(s);
    hide Pick;
    forall j | 0 <= j < MAX_THREADS && j != s.current && s.threads[j].state == Ready && Between(s.current, j, p)
      ensures false
    {
      ScanCloser(s, j);
    }
  }

  /** A thread that parks is followed by the next ready one in the order of the slots, around the end, and by
      itself only if no other is ready. */
  lemma YieldTurn(s: Sched, st: State)
    requires OneRuns(s) && s.current >= 0
    ensures var c, p := s.current, Yielded(s, st).current;
      && 0 <= p < MAX_THREADS
      && (p != c ==> s.threads[p].state == Ready)
      && forall j | 0 <= j < MAX_THREADS && j != c && Between(c, j, p) :: s.threads[j].state != Ready
  {
    var z := Saving(s, st);
    PickTurn(z);
    hide Pick, Saved, Loaded;
    assert forall j :: 0 <= j < MAX_THREADS && j != s.current ==> z.threads[j] == s.threads[j];
  }

  /** A thread that exits is followed by the first ready one, counted from slot 0, or by none. */
  lemma ExitTurn(s: Sched, code: U32)
    requires OneRuns(s) && s.current >= 0
    ensures var p := Left(s, code).current;
      if p < 0 then p == -1 && forall j | 0 <= j < MAX_THREADS :: s.threads[j].state != Ready
      else
        && p < MAX_THREADS && s.threads[p].state == Ready
        && forall j | 0 <= j < p :: s.threads[j].state != Ready
  {
    var z := Exiting(s, code);
    PickTurn(z);
    hide Pick, Loaded;
    assert forall j :: 0 <= j < MAX_THREADS && j != s.current ==> z.threads[j] == s.threads[j];
    assert forall j :: 0 <= j < Pick(z) ==> Between(-1, j, Pick(z));
  }

  // ----- what stays until somebody changes it -----

  /** A thread that can only run after somebody else has acted, or never */
  predicate Asleep(t: Thread) {
    t.state == Waiting || t.state == Suspended || t.state == Exited
  }

  /** Only a signal on the handle that it waits for rouses a waiting thread, and only a resume a suspended one. */
  predicate Rouses(a: Action, t: Thread) {
    || (t.state == Waiting && (a == SetEvent(t.waitHandle) || a == Wake(t.waitHandle)))
    || (t.state == Suspended && a == Resume(t.handle))
  }

  /** An action makes such a thread ready exactly if it rouses it, and else changes nothing in its slot. */
  lemma AsleepExactly(y: Sys, a: Action, i: nat)
    requires Sane(y.sched) && Enabled(y, a) && i < MAX_THREADS && Asleep(y.sched.threads[i])
    ensures y.sched.current != i && Step(y, a).sched.current != i
    ensures var t, u := y.sched.threads[i], Step(y, a).sched.threads[i];
      if Rouses(a, t) then u == t.(state := Ready, waitHandle := if t.state == Waiting then 0 else t.waitHandle)
      else u == t
  {
    AsleepAway(y, i);
    hide Step, Numbered, OneRuns, Parks, Sane, Enabled, Spawned, Left, Switched;
    if Parks(y, a) {
      ParkSleeps(y, a, i);
    } else if a.Exit? {
      ExitSleeps(y.sched, a.code, i);
    } else if a.Switch? {
      SwitchSleeps(y.sched, i);
    } else if a.Spawn? {
      SpawnSleeps(y, a.start, a.param, a.suspended, a.teb, i);
    } else if a.Resume? {
      ResumeRouses(y, a.thread, i);
    } else {
      RestSleeps(y, a, i);
    }
  }

  lemma SwitchSleeps(s: Sched, i: nat)
    requires i < MAX_THREADS && s.threads[i].state != Ready && s.current != i
    ensures Switched(s).threads[i] == s.threads[i] && Switched(s).current != i
  {
    hide Pick, Loaded;
  }

  lemma ExitSleeps(s: Sched, code: U32, i: nat)
    requires OneRuns(s) && s.current >= 0 && i < MAX_THREADS && Asleep(s.threads[i])
    ensures Left(s, code).threads[i] == s.threads[i] && Left(s, code).current != i
  {
    SwitchSleeps(Exiting(s, code), i);
    hide Switched;
  }

  lemma YieldSleeps(s: Sched, st: State, i: nat)
    requires OneRuns(s) && s.current >= 0 && i < MAX_THREADS && Asleep(s.threads[i])
    ensures Yielded(s, st).threads[i] == s.threads[i] && Yielded(s, st).current != i
  {
    hide Pick, Saved, Loaded;
  }

  lemma ParkSleeps(y: Sys, a: Action, i: nat)
    requires Sane(y.sched) && Enabled(y, a) && Parks(y, a) && i < MAX_THREADS && Asleep(y.sched.threads[i])
    ensures Step(y, a).sched.threads[i] == y.sched.threads[i] && Step(y, a).sched.current != i
  {
    hide Signalled, Yielded, Numbered, Asleep;
    match a
    case Yield => YieldSleeps(y.sched, Ready, i);
    case Wait(handle, timeout) =>
      AwaitKeeps(y.sched, handle, timeout);
      AwaitSleeps(y.sched, handle, timeout, i);
      YieldSleeps(Awaiting(y.sched, handle, timeout), WaitState(timeout), i);
    case AwaitCompletion(limit) =>
      AwaitKeeps(y.sched, IOCP_HANDLE, limit);
      AwaitSleeps(y.sched, IOCP_HANDLE, limit, i);
      YieldSleeps(Awaiting(y.sched, IOCP_HANDLE, limit), Waiting, i);
  }

  lemma AwaitSleeps(s: Sched, h: U32, timeout: U32, i: nat)
    requires OneRuns(s) && i < MAX_THREADS && Asleep(s.threads[i])
    ensures Awaiting(s, h, timeout).threads[i] == s.threads[i]
  {
  }

  lemma SpawnSleeps(y: Sys, start: U32, param: U32, suspended: bool, teb: U32, i: nat)
    requires Sane(y.sched) && y.sched.current >= 0 && i < y.sched.count
    ensures Spawned(y, start, param, suspended, teb).sched.threads[i] == y.sched.threads[i]
    ensures Spawned(y, start, param, suspended, teb).sched.current == y.sched.current
  {
    var s := y.sched;
    SpawnIsolates(y, start, param, suspended, teb, i);
    if FirstFree(s.threads, 0) >= 0 {
      CreatedKeeps(s, start, param, suspended);
      LocateNumbered(Created(s, start, param, suspended), s.count);
      assert HandleOf(s.count) == s.nextHandle;
      hide FirstFree, Created, OneRuns, Locate;
    }
  }

  lemma ResumeRouses(y: Sys, handle: U32, i: nat)
    requires Sane(y.sched) && i < y.sched.count && Asleep(y.sched.threads[i])
    ensures var t := y.sched.threads[i];
      Resumed(y, handle).sched.threads[i] == if Rouses(Resume(handle), t) then t.(state := Ready) else t
    ensures Resumed(y, handle).sched.current == y.sched.current
  {
    LocateNumbered(y.sched, i);
    hide Locate;
  }

  lemma RestSleeps(y: Sys, a: Action, i: nat)
    requires Sane(y.sched) && Enabled(y, a) && i < MAX_THREADS && Asleep(y.sched.threads[i])
    requires !Parks(y, a) && !a.Exit? && !a.Switch? && !a.Spawn? && !a.Resume?
    ensures Step(y, a).sched.current == y.sched.current
    ensures var t, u := y.sched.threads[i], Step(y, a).sched.threads[i];
      if Rouses(a, t) then u == t.(state := Ready, waitHandle := 0) else u == t
  {
    hide Signalled, Numbered, OneRuns;
  }

  /** So it sleeps through any run in which nobody rouses it. */
  lemma {:induction false} SleepsOn(y: Sys, run: seq<Action>, i: nat)
    requires Sane(y.sched) && Possible(y, run) && i < MAX_THREADS && Asleep(y.sched.threads[i])
    requires forall k | 0 <= k < |run| :: !Rouses(run[k], y.sched.threads[i])
    ensures Run(y, run).sched.threads[i] == y.sched.threads[i] && Passed(y, run, i)
    decreases |run|
  {
    hide Step, Sane, Rouses, Asleep, Enabled;
    if run == [] {
      AsleepAway(y, i);
    } else {
      AsleepExactly(y, run[0], i);
      StepKeeps(y, run[0]);
      SleepsOn(Step(y, run[0]), run[1..], i);
    }
  }

  lemma AsleepAway(y: Sys, i: nat)
    requires Sane(y.sched) && i < MAX_THREADS && Asleep(y.sched.threads[i])
    ensures y.sched.current != i && i < y.sched.count
  {
  }

  /** A thread that has exited never runs again, keeps its exit code, and satisfies every wait for it. */
  lemma ExitedForGood(y: Sys, code: U32, run: seq<Action>, timeout: U32)
    requires Sane(y.sched) && y.sched.current >= 0 && Possible(Step(y, Exit(code)), run)
    ensures var i, z := y.sched.current, Run(Step(y, Exit(code)), run); var t := z.sched.threads[i];
      && t.state == Exited && t.exitCode == code && t.handle == y.sched.threads[i].handle
      && Passed(Step(y, Exit(code)), run, i) && WaitVerdict(z, t.handle, timeout) == Satisfied
  {
    var i, z := y.sched.current, Step(y, Exit(code));
    assert i < MAX_THREADS;
    JustExited(y.sched, code);
    StepKeeps(y, Exit(code));
    hide Sane, Left;
    SleepsOn(z, run, i);
    RunKeeps(z, run);
    ExitedSignals(Run(z, run), i, timeout);
  }

  lemma JustExited(s: Sched, code: U32)
    requires OneRuns(s) && s.current >= 0
    ensures Left(s, code).threads[s.current] == s.threads[s.current].(state := Exited, exitCode := code)
  {
    hide Pick, Loaded;
  }

  lemma ExitedSignals(y: Sys, i: nat, timeout: U32)
    requires Sane(y.sched) && i < MAX_THREADS && y.sched.threads[i].state == Exited
    ensures WaitVerdict(y, y.sched.threads[i].handle, timeout) == Satisfied
  {
    SignalledIs(y, y.sched.threads[i].handle);
    hide Signalled, Pick, Sane;
  }

  // ----- thread-local values -----

  /** The last value that the thread in slot `i` has stored under the index, `value` if it has stored none */
  function LastStored(y: Sys, run: seq<Action>, i: nat, index: nat, value: U32): U32
    decreases |run|
  {
    if run == [] then value
    else
      var a := run[0];
      LastStored(Step(y, a), run[1..], i, index,
                 if a.TlsSet? && a.index == index && y.sched.current == i then a.value else value)
  }

  lemma TlsStep(y: Sys, a: Action, i: nat, index: nat)
    requires Enabled(y, a) && i < MAX_THREADS && index < TLS_SLOTS
    ensures Step(y, a).tls[i][index]
         == if a.TlsSet? && a.index == index && y.sched.current == i then a.value else y.tls[i][index]
  {
    hide Locate, FirstFree, Created, Yielded, Switched, Awaiting, Wakened, Left, Signalled;
  }

  /** A thread reads what it has last stored itself, whatever others store. */
  lemma {:induction false} TlsReads(y: Sys, run: seq<Action>, i: nat, index: nat)
    requires Possible(y, run) && i < 32 && index < 1088
    ensures Run(y, run).tls[i][index] == LastStored(y, run, i, index, y.tls[i][index])
    decreases |run|
  {
    if run != [] {
      TlsStep(y, run[0], i, index);
      hide Step, Enabled;
      TlsReads(Step(y, run[0]), run[1..], i, index);
    }
  }

  // ----- events -----

  lemma EventUp(y: Sys, e: nat)
    requires Sane(y.sched) && e < MAX_EVENTS
    ensures Up(y, 0x200 + e) <==> y.signalled[e]
  {
    EventSignalled(y, e);
    SignalledIs(y, EVENT_BASE + e);
    hide Signalled, Up, Sane;
  }

  lemma EventMadeIs(y: Sys, manual: bool, initial: bool)
    requires y.eventNext < MAX_EVENTS
    ensures var z, n := EventMade(y, manual, initial), y.eventNext;
      && z.sched == y.sched && z.signalled == y.signalled[n := initial] && z.manual == y.manual[n := manual]
  {
  }

  /** A new event is up if it is to be, and no other event is touched. */
  lemma EventStarts(y: Sys, manual: bool, initial: bool)
    requires Sane(y.sched) && y.sched.current >= 0 && y.eventNext < MAX_EVENTS
    ensures var z := Step(y, CreateEvent(manual, initial));
      && Sane(z.sched) && (Up(z, 0x200 + y.eventNext) <==> initial) && z.manual[y.eventNext] == manual
      && forall e | 0 <= e < MAX_EVENTS && e != y.eventNext ::
           z.signalled[e] == y.signalled[e] && z.manual[e] == y.manual[e]
  {
    EventMadeIs(y, manual, initial);
    EventUp(Step(y, CreateEvent(manual, initial)), y.eventNext);
    hide Sane, Up, EventMade;
  }

  /** A signal raises an event, a reset lowers it, and it stays up after a wait exactly if it was up and is a
      manual-reset event. */
  lemma EventBehaves(y: Sys, e: nat, timeout: U32)
    requires Sane(y.sched) && y.sched.current >= 0 && e < MAX_EVENTS
    ensures Up(Step(y, SetEvent(0x200 + e)), 0x200 + e) && !Up(Step(y, ResetEvent(0x200 + e)), 0x200 + e)
    ensures Up(Step(y, Wait(0x200 + e, timeout)), 0x200 + e) <==> Up(y, 0x200 + e) && y.manual[e]
  {
    InRange(y, e, timeout);
    hide Step, Sane, Up, Enabled;
    SignalFlag(y, e);
    WaitFlag(y, e, timeout);
    EventAfter(y, SetEvent(0x200 + e), e);
    EventAfter(y, ResetEvent(0x200 + e), e);
    EventAfter(y, Wait(0x200 + e, timeout), e);
    EventUp(y, e);
  }

  lemma InRange(y: Sys, e: nat, timeout: U32)
    requires Sane(y.sched) && y.sched.current >= 0 && e < MAX_EVENTS
    ensures Enabled(y, SetEvent(0x200 + e)) && Enabled(y, ResetEvent(0x200 + e)) && Enabled(y, Wait(0x200 + e, timeout))
  {
  }

  lemma EventAfter(y: Sys, a: Action, e: nat)
    requires Sane(y.sched) && Enabled(y, a) && e < MAX_EVENTS
    ensures Up(Step(y, a), 0x200 + e) <==> Step(y, a).signalled[e]
  {
    hide Step, Sane, Up, Enabled;
    StepKeeps(y, a);
    EventUp(Step(y, a), e);
  }

  lemma SignalFlag(y: Sys, e: nat)
    requires e < MAX_EVENTS
    ensures Step(y, SetEvent(0x200 + e)).signalled[e] && !Step(y, ResetEvent(0x200 + e)).signalled[e]
  {
    hide Wakened;
  }

  lemma WaitFlag(y: Sys, e: nat, timeout: U32)
    requires Sane(y.sched) && e < MAX_EVENTS
    ensures Step(y, Wait(0x200 + e, timeout)).signalled[e] == (y.signalled[e] && y.manual[e])
  {
    var h: U32 := EVENT_BASE + e;
    EventSignalled(y, e);
    WaitFlags(y, h, timeout);
    TakenFlag(y, e);
    hide Sane, Signalled, Consumed, Waited;
  }

  lemma TakenFlag(y: Sys, e: nat)
    requires e < MAX_EVENTS
    ensures Consumed(y, EVENT_BASE + e).signalled[e] == (y.signalled[e] && y.manual[e])
  {
  }
}
