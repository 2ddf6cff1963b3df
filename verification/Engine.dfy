/**
 The engine around the scheduler: thread-local slots, event flags, and the calls of a
 guest program that use them. A run is a sequence of actions, each of them what one
 guest call or one stretch of guest instructions does.
 */
module Engine {
  import opened Numeric
  import opened Threads

  const TLS_SLOTS := 1088
  const EVENT_BASE: U32 := 0x200
  const MAX_EVENTS := 256
  const INFINITE: U32 := 0xFFFF_FFFF
  const IOCP_HANDLE: U32 := 0x8500

  type TlsRow = r: seq<U32> | |r| == TLS_SLOTS witness seq(TLS_SLOTS, i => 0)
  const EMPTY_ROW: TlsRow := seq(TLS_SLOTS, j => 0)

  type TlsTable = t: seq<TlsRow> | |t| == MAX_THREADS witness seq<TlsRow>(MAX_THREADS, i => EMPTY_ROW)
  type Flags = f: seq<bool> | |f| == MAX_EVENTS witness seq(MAX_EVENTS, i => false)

  datatype Sys = Sys(sched: Sched, tls: TlsTable, signalled: Flags, manual: Flags, eventNext: nat)

  /** How a wait ends: its object was signalled, its time is up, the only runnable thread asked
      for an unlimited wait, or the call has not returned because another thread runs. */
  datatype Verdict = Satisfied | TimedOut | Alone | Blocked

  // ----- meaning of the calls -----

  predicate IsEvent(h: U32) {
    EVENT_BASE <= h < EVENT_BASE + MAX_EVENTS
  }

  function TlsIndex(s: Sched): (i: nat)
    ensures i < MAX_THREADS
  {
    if 0 <= s.current < MAX_THREADS then s.current else 0
  }

  function TlsStored(y: Sys, index: U32, value: U32): Sys {
    var i := TlsIndex(y.sched);
    if index < TLS_SLOTS then y.(tls := y.tls[i := y.tls[i][index := value]]) else y
  }

  function Given(y: Sys, handle: U32, teb: U32): Sys {
    var slot := Locate(y.sched.threads, handle, 0);
    if handle == 0 || slot < 0 || teb == 0 then y
    else
      var t := y.sched.threads[slot];
      y.(sched := y.sched.(threads := y.sched.threads[slot := t.(teb := teb, regs := t.regs.(fsBase := teb))]))
  }

  /** A thread created by a guest call gets the FS base `teb`, or shares its creator's if `teb` is 0. */
  function Spawned(y: Sys, start: U32, param: U32, suspended: bool, teb: U32): Sys {
    if FirstFree(y.sched.threads, 0) < 0 then y
    else Given(y.(sched := Created(y.sched, start, param, suspended)), y.sched.nextHandle, teb)
  }

  lemma SpawnedWithout(y: Sys, start: U32, param: U32, suspended: bool, teb: U32)
    ensures FirstFree(y.sched.threads, 0) < 0 ==> Created(y.sched, start, param, suspended) == y.sched
    ensures forall z :: Given(z, 0, teb) == z
  {
  }

  function Resumed(y: Sys, handle: U32): Sys {
    var slot := Locate(y.sched.threads, handle, 0);
    if slot >= 0 && y.sched.threads[slot].state == Suspended then
      y.(sched := y.sched.(threads := y.sched.threads[slot := y.sched.threads[slot].(state := Ready)]))
    else y
  }

  function EventMade(y: Sys, manual: bool, initial: bool): Sys {
    if y.eventNext < MAX_EVENTS then
      y.(signalled := y.signalled[y.eventNext := initial], manual := y.manual[y.eventNext := manual],
         eventNext := y.eventNext + 1)
    else y
  }

  function Flagged(y: Sys, h: U32, on: bool): Sys {
    if IsEvent(h) then y.(signalled := y.signalled[h - EVENT_BASE := on]) else y
  }

  function EventSet(y: Sys, h: U32): Sys {
    Flagged(y, h, true).(sched := Wakened(y.sched, h))
  }

  /** A satisfied wait takes the signal of an auto-reset event with it. */
  function Consumed(y: Sys, h: U32): Sys {
    if IsEvent(h) && !y.manual[h - EVENT_BASE] then Flagged(y, h, false) else y
  }

  predicate Signalled(y: Sys, h: U32) {
    var slot := Locate(y.sched.threads, h, 0);
    (IsEvent(h) && y.signalled[h - EVENT_BASE]) || (slot >= 0 && y.sched.threads[slot].state == Exited)
  }

  function Awaiting(s: Sched, h: U32, timeout: U32): Sched {
    if 0 <= s.current < MAX_THREADS then
      s.(threads := s.threads[s.current := s.threads[s.current].(waitHandle := h, waitTimeout := timeout)])
    else s
  }

  function WaitState(timeout: U32): State {
    if timeout == INFINITE then Waiting else Ready
  }

  function WaitVerdict(y: Sys, h: U32, timeout: U32): Verdict {
    if Signalled(y, h) then Satisfied
    else if timeout == 0 then TimedOut
    else if Pick(Saving(Awaiting(y.sched, h, timeout), WaitState(timeout))) >= 0 then Blocked
    else if timeout == INFINITE then Alone
    else TimedOut
  }

  /** What a wait that has come back answers: WAIT_OBJECT_0 or WAIT_TIMEOUT */
  function WaitValue(v: Verdict): U32 {
    if v.TimedOut? then 258 else 0
  }

  function Waited(y: Sys, h: U32, timeout: U32): Sys {
    if Signalled(y, h) then Consumed(y, h)
    else if timeout == 0 then y
    else y.(sched := Yielded(Awaiting(y.sched, h, timeout), WaitState(timeout)))
  }

  // ----- runs -----

  datatype Action =
    | Execute(gpr: WideGprs, rip: U64)
    | Spawn(start: U32, param: U32, suspended: bool, teb: U32)
    | Resume(thread: U32)
    | Yield
    | Wait(handle: U32, timeout: U32)
    | AwaitCompletion(limit: U32)
    | Wake(handle: U32)
    | Exit(code: U32)
    | Switch
    | TlsSet(index: U32, value: U32)
    | CreateEvent(manual: bool, initial: bool)
    | CreateMutex
    | SetEvent(event: U32)
    | ResetEvent(event: U32)

  /** Guest calls need a running thread; the engine picks a thread only when none runs. */
  predicate Enabled(y: Sys, a: Action) {
    match a
    case Switch => y.sched.current < 0
    case Wake(_) => true
    case _ => 0 <= y.sched.current < MAX_THREADS
  }

  function Step(y: Sys, a: Action): Sys {
    match a
    case Execute(gpr, rip) => y.(sched := y.sched.(core := y.sched.core.(gpr := gpr, rip := rip)))
    case Spawn(start, param, suspended, teb) => Spawned(y, start, param, suspended, teb)
    case Resume(thread) => Resumed(y, thread)
    case Yield => y.(sched := Yielded(y.sched, Ready))
    case Wait(handle, timeout) => Waited(y, handle, timeout)
    case AwaitCompletion(limit) => y.(sched := Yielded(Awaiting(y.sched, IOCP_HANDLE, limit), Waiting))
    case Wake(handle) => y.(sched := Wakened(y.sched, handle))
    case Exit(code) => y.(sched := Left(y.sched, code))
    case Switch => y.(sched := Switched(y.sched))
    case TlsSet(index, value) => TlsStored(y, index, value)
    case CreateEvent(manual, initial) => EventMade(y, manual, initial)
    case CreateMutex => if y.eventNext < MAX_EVENTS then y.(eventNext := y.eventNext + 1) else y
    case SetEvent(event) => EventSet(y, event)
    case ResetEvent(event) => Flagged(y, event, false)
  }

  /** Every action of the run is possible where it stands. */
  predicate Possible(y: Sys, run: seq<Action>)
    decreases |run|
  {
    run == [] || (Enabled(y, run[0]) && Possible(Step(y, run[0]), run[1..]))
  }

  function Run(y: Sys, run: seq<Action>): Sys
    decreases |run|
  {
    if run == [] then y else Run(Step(y, run[0]), run[1..])
  }

  const NO_TLS: TlsTable := seq<TlsRow>(MAX_THREADS, i => EMPTY_ROW)
  const NO_FLAGS: Flags := seq(MAX_EVENTS, i => false)

  function MainThread(teb: U32): Thread {
    BLANK.(state := Running, id := MAIN_ID, handle := MAIN_HANDLE, exitCode := STILL_ACTIVE, teb := teb,
           regs := Regs(ZEROES, 0, teb))
  }

  /** The engine before any thread */
  function Unstarted(core: Core): Sys {
    Sys(Sched(seq(MAX_THREADS, i => BLANK), -1, 0, FIRST_ID, FIRST_HANDLE, FIRST_STACK, core),
        NO_TLS, NO_FLAGS, NO_FLAGS, 0)
  }

  /** The engine with its main thread registered. */
  function Booted(teb: U32, core: Core): Sys {
    var threads: Slots := seq(MAX_THREADS, i => if i == 0 then MainThread(teb) else BLANK);
    Sys(Sched(threads, 0, 1, FIRST_ID, FIRST_HANDLE, FIRST_STACK, core.(fsBase := teb)),
        NO_TLS, NO_FLAGS, NO_FLAGS, 0)
  }

  // ----- the engine -----

  class Vm {
    const sched: Scheduler
    const tls: array2<U32>
    const signalled: array<bool>
    const manual: array<bool>
    var eventNext: nat

    ghost predicate Valid()
      reads this, sched
    {
      && sched.Valid() && tls.Length0 == MAX_THREADS && tls.Length1 == TLS_SLOTS
      && signalled.Length == MAX_EVENTS && manual.Length == MAX_EVENTS && signalled != manual
    }

    ghost function Row(i: nat): (r: TlsRow)
      requires tls.Length0 == MAX_THREADS && tls.Length1 == TLS_SLOTS && i < MAX_THREADS
      reads tls
    {
      seq(TLS_SLOTS, j requires 0 <= j < TLS_SLOTS reads tls => tls[i, j])
    }

    ghost function Tls(): (t: TlsTable)
      requires tls.Length0 == MAX_THREADS && tls.Length1 == TLS_SLOTS
      reads tls
    {
      seq(MAX_THREADS, i requires 0 <= i < MAX_THREADS reads tls => Row(i))
    }

    ghost function View(): Sys
      requires Valid()
      reads this, sched, sched.threads, sched.cpu, sched.cpu.gpr, tls, signalled, manual
    {
      Sys(sched.View(), Tls(), signalled[..], manual[..], eventNext)
    }

    constructor (cpu: Cpu)
      requires cpu.gpr.Length == 8
      ensures Valid() && sched.cpu == cpu && fresh(sched) && fresh(sched.threads)
      ensures fresh(tls) && fresh(signalled) && fresh(manual)
      ensures View() == Unstarted(cpu.View())
    {
      sched := new Scheduler(cpu);
      tls := new U32[MAX_THREADS, TLS_SLOTS]((i, j) => 0);
      signalled := new bool[MAX_EVENTS](i => false);
      manual := new bool[MAX_EVENTS](i => false);
      eventNext := 0;
      new;
      assert signalled[..] == NO_FLAGS && manual[..] == NO_FLAGS;
      assert forall i :: 0 <= i < MAX_THREADS ==> Row(i) == EMPTY_ROW;
      assert Tls() == NO_TLS;
    }

    /** The environment block of the main thread goes to the processor and to slot 0. */
    method StartMain(teb: U32)
      requires Valid() && View() == Unstarted(sched.cpu.View())
      modifies sched`current, sched`count, sched.threads, sched.cpu
      ensures Valid() && View() == Booted(teb, old(sched.cpu.View()))
    {
      sched.cpu.fsBase := teb;
      sched.threads[0] := BLANK.(state := Running, id := MAIN_ID, handle := MAIN_HANDLE, exitCode := STILL_ACTIVE);
      sched.threads[0] := sched.threads[0].(regs := sched.threads[0].regs.(fsBase := teb), teb := teb);
      sched.current := 0;
      sched.count := 1;
      assert sched.threads[..] == Booted(teb, old(sched.cpu.View())).sched.threads;
    }

    /** TlsSetValue */
    method TlsSetValue(index: U32, value: U32)
      requires Valid()
      modifies tls
      ensures View() == TlsStored(old(View()), index, value)
    {
      var ti := if sched.current >= 0 then sched.current else 0;
      if index < TLS_SLOTS {
        tls[ti, index] := value;
      }
      assert forall i :: 0 <= i < MAX_THREADS ==> Row(i) == TlsStored(old(View()), index, value).tls[i];
      assert Tls() == TlsStored(old(View()), index, value).tls;
    }

    /** TlsGetValue */
    method TlsGetValue(index: U32) returns (value: U32)
      requires Valid()
      ensures value == if index < TLS_SLOTS then Tls()[TlsIndex(sched.View())][index] else 0
    {
      var ti := if sched.current >= 0 then sched.current else 0;
      value := if index < TLS_SLOTS then tls[ti, index] else 0;
    }

    /** CreateThread, with `teb` the environment block allocated for the new thread, 0 if that failed */
    method CreateThread(start: U32, param: U32, flags: U32, teb: U32, mem: array<Byte>) returns (handle: U32, tid: U32)
      requires Valid() && mem.Length >= TWO32 + THREAD_STACK
      modifies sched`count, sched`nextId, sched`nextHandle, sched`nextStackAddr, sched.threads, mem
      ensures Valid() && View() == Spawned(old(View()), start, param, flags / CREATE_SUSPENDED % 2 == 1, teb)
      ensures if FirstFree(old(sched.threads[..]), 0) < 0 then handle == 0 && tid == 0 && mem[..] == old(mem[..])
              else
                && handle == old(sched.nextHandle) && tid == old(sched.nextId)
                && mem[..] == StackMade(old(mem[..]), old(sched.nextStackAddr), param)
    {
      SpawnedWithout(View(), start, param, flags / CREATE_SUSPENDED % 2 == 1, teb);
      hide FirstFree, Locate, Created, Given, StackMade;
      handle, tid := sched.CreateThread(start, param, flags, mem);
      if handle != 0 {
        GiveBlock(handle, teb);
      }
    }

    /** The environment block of a thread goes to its slot and its saved registers. */
    method GiveBlock(handle: U32, teb: U32)
      requires Valid() && handle != 0
      modifies sched.threads
      ensures Valid() && View() == Given(old(View()), handle, teb)
    {
      hide Locate;
      var slot := sched.Find(handle);
      if slot >= 0 && teb != 0 {
        sched.threads[slot] := sched.threads[slot].(teb := teb);
        sched.threads[slot] := sched.threads[slot].(regs := sched.threads[slot].regs.(fsBase := teb));
      }
    }

    /** ResumeThread */
    method ResumeThread(handle: U32) returns (ok: bool)
      requires Valid()
      modifies sched.threads
      ensures View() == Resumed(old(View()), handle)
      ensures ok <==> View() != old(View())
    {
      var slot := sched.Find(handle);
      hide Locate;
      ok := slot >= 0 && sched.threads[slot].state == Suspended;
      if ok {
        sched.threads[slot] := sched.threads[slot].(state := Ready);
        assert View().sched.threads[slot] != old(View()).sched.threads[slot];
      }
    }

    /** CreateEvent: the new handle, or 0 when the table is full */
    method CreateEvent(manualReset: bool, initialState: bool) returns (handle: U32)
      requires Valid()
      modifies this`eventNext, signalled, manual
      ensures Valid() && View() == EventMade(old(View()), manualReset, initialState)
      ensures handle == if old(eventNext) < MAX_EVENTS then EVENT_BASE + old(eventNext) else 0
    {
      handle := 0;
      if eventNext < MAX_EVENTS {
        var idx := eventNext;
        eventNext := eventNext + 1;
        signalled[idx] := initialState;
        manual[idx] := manualReset;
        handle := EVENT_BASE + idx;
      }
    }

    /** SetEvent */
    method SetEvent(h: U32)
      requires Valid()
      modifies signalled, sched.threads
      ensures View() == EventSet(old(View()), h)
    {
      if EVENT_BASE <= h < EVENT_BASE + MAX_EVENTS {
        signalled[h - EVENT_BASE] := true;
      }
      sched.Wake(h);
    }

    /** ResetEvent */
    method ResetEvent(h: U32)
      requires Valid()
      modifies signalled
      ensures View() == Flagged(old(View()), h, false)
    {
      if EVENT_BASE <= h < EVENT_BASE + MAX_EVENTS {
        signalled[h - EVENT_BASE] := false;
      }
    }

    /** wg_event_consume */
    method Consume(h: U32)
      requires Valid()
      modifies signalled
      ensures View() == Consumed(old(View()), h)
    {
      if EVENT_BASE <= h < EVENT_BASE + MAX_EVENTS {
        var idx := h - EVENT_BASE;
        if !manual[idx] {
          signalled[idx] := false;
        }
      }
    }

    /** The current thread names what it waits for and lets another thread run. */
    method Park(h: U32, timeout: U32, blk: State) returns (switched: bool)
      requires Valid()
      modifies sched`current, sched.threads, sched.cpu, sched.cpu.gpr
      ensures Valid() && View() == old(View()).(sched := Yielded(Awaiting(old(View()).sched, h, timeout), blk))
      ensures switched == (Pick(Saving(Awaiting(old(View()).sched, h, timeout), blk)) >= 0)
    {
      hide Yielded, Pick, Saving;
      if sched.current >= 0 {
        sched.threads[sched.current] := sched.threads[sched.current].(waitHandle := h, waitTimeout := timeout);
      }
      assert sched.View() == Awaiting(old(View()).sched, h, timeout);
      switched := sched.Yield(blk);
    }

    /** An event whose flag is up, or a thread that has exited */
    method IsSignalled(h: U32) returns (sig: bool)
      requires Valid()
      ensures sig == Signalled(View(), h)
    {
      hide Locate;
      sig := false;
      if EVENT_BASE <= h < EVENT_BASE + MAX_EVENTS {
        sig := signalled[h - EVENT_BASE];
      }
      var wt := sched.Find(h);
      if wt >= 0 && sched.threads[wt].state == Exited {
        sig := true;
      }
    }

    /** WaitForSingleObject; `returned` is false when another thread has been switched to */
    method WaitForSingleObject(h: U32, timeout: U32) returns (returned: bool, value: U32)
      requires Valid()
      modifies signalled, sched`current, sched.threads, sched.cpu, sched.cpu.gpr
      ensures Valid() && View() == Waited(old(View()), h, timeout)
      ensures returned <==> !WaitVerdict(old(View()), h, timeout).Blocked?
      ensures returned ==> value == WaitValue(WaitVerdict(old(View()), h, timeout))
      ensures Signalled(old(View()), h) ==> returned && value == 0
      ensures !Signalled(old(View()), h) && timeout == 0 ==> returned && value == 258
      ensures timeout == 0xFFFF_FFFF && returned ==> value == 0
    {
      var sig := IsSignalled(h);
      hide Locate, Yielded, Pick, Saving, Signalled, Awaiting, Consumed;
      if sig {
        Consume(h);
        return true, 0;
      }
      if timeout == 0 {
        return true, 258;
      }
      var switched := Park(h, timeout, if timeout == INFINITE then Waiting else Ready);
      if switched {
        return false, 0;
      }
      return true, if timeout == INFINITE then 0 else 258;
    }
  }
}
