/**
 What holds over every run of the scheduler: one slot runs at a time, a thread that is
 away keeps its registers and its thread-local values and gets them back, handles and
 stacks never collide, and a ready thread is not passed over for ever.
 */
module ThreadRuns {
  import opened Numeric
  import opened Threads
  import opened Engine
  import opened Patching

  // ----- the invariant -----

  function HandleOf(slot: nat): int {
    if slot == 0 then MAIN_HANDLE else FIRST_HANDLE + slot - 1
  }

  function IdOf(slot: nat): int {
    if slot == 0 then MAIN_ID else FIRST_ID + slot - 1
  }

  function StackOf(slot: nat): int
    requires slot > 0
  {
    FIRST_STACK + STACK_STRIDE * (slot - 1)
  }

  /** Slots are filled in order and never emptied, so a slot's number gives its names and its stack. */
  ghost predicate Numbered(s: Sched) {
    && 1 <= s.count <= MAX_THREADS
    && s.nextHandle == FIRST_HANDLE + s.count - 1 && s.nextId == FIRST_ID + s.count - 1
    && s.nextStack == FIRST_STACK + STACK_STRIDE * (s.count - 1)
    && (forall i :: s.count <= i < MAX_THREADS ==> s.threads[i].state == Free)
    && (forall i :: 0 <= i < s.count ==>
          && s.threads[i].state != Free && s.threads[i].handle == HandleOf(i) && s.threads[i].id == IdOf(i)
          && (i > 0 ==> s.threads[i].stackBase == StackOf(i) && s.threads[i].stackSize == THREAD_STACK))
  }

  /** Exactly the slot at `current` runs, with its own FS base; none does when it is -1. */
  ghost predicate OneRuns(s: Sched) {
    && -1 <= s.current < MAX_THREADS
    && (forall i :: 0 <= i < MAX_THREADS ==> (s.threads[i].state == Running <==> i == s.current))
    && (s.current >= 0 ==> s.core.fsBase == s.threads[s.current].regs.fsBase)
  }

  ghost predicate Sane(s: Sched) {
    Numbered(s) && OneRuns(s)
  }

  /** A thread keeps what names it and where its stack is. */
  predicate SameNames(t: Thread, u: Thread) {
    && t.handle == u.handle && t.id == u.id && t.stackBase == u.stackBase && t.stackSize == u.stackSize
    && (t.state == Free <==> u.state == Free)
  }

  /** Nothing but the slots' other fields, the current slot and the processor differs. */
  ghost predicate SameShape(s: Sched, z: Sched) {
    && z.count == s.count && z.nextHandle == s.nextHandle && z.nextId == s.nextId && z.nextStack == s.nextStack
    && forall i :: 0 <= i < MAX_THREADS ==> SameNames(s.threads[i], z.threads[i])
  }

  lemma ShapeNumbered(s: Sched, z: Sched)
    requires Numbered(s) && SameShape(s, z)
    ensures Numbered(z)
  {
    forall i | 0 <= i < MAX_THREADS
      ensures SameNames(s.threads[i], z.threads[i])
    {
    }
  }

  /** With no slot running, entering a slot that is in use restores the invariant. */
  lemma DispatchKeeps(s: Sched, slot: nat)
    requires slot < MAX_THREADS && s.threads[slot].state != Free
    requires forall i :: 0 <= i < MAX_THREADS ==> s.threads[i].state != Running
    ensures SameShape(s, Dispatched(s, slot)) && OneRuns(Dispatched(s, slot))
  {
  }

  lemma SwitchKeeps(s: Sched)
    requires Numbered(s) && s.current == -1
    requires forall i :: 0 <= i < MAX_THREADS ==> s.threads[i].state != Running
    ensures Sane(Switched(s))
  {
    hide Pick, Numbered;
    if Pick(s) >= 0 {
      DispatchKeeps(s, Pick(s));
      ShapeNumbered(s, Switched(s));
    }
  }

  lemma YieldKeeps(s: Sched, st: State)
    requires Sane(s) && s.current >= 0 && (st == Ready || st == Waiting)
    ensures Sane(Yielded(s, st)) && Yielded(s, st).current >= 0
  {
    var saved := Saving(s, st);
    assert SameShape(s, saved);
    ShapeNumbered(s, saved);
    var slot := if Pick(saved) >= 0 then Pick(saved) else s.current;
    hide Pick, Numbered, Saved;
    assert saved.threads[slot].state != Free;
    assert forall i :: 0 <= i < MAX_THREADS ==> saved.threads[i].state != Running;
    DispatchKeeps(saved, slot);
    ShapeNumbered(saved, Dispatched(saved, slot));
  }

  lemma AwaitKeeps(s: Sched, h: U32, timeout: U32)
    requires Sane(s)
    ensures Sane(Awaiting(s, h, timeout)) && Awaiting(s, h, timeout).current == s.current
  {
    assert SameShape(s, Awaiting(s, h, timeout));
    ShapeNumbered(s, Awaiting(s, h, timeout));
  }

  lemma WakeKeeps(s: Sched, h: U32)
    requires Sane(s)
    ensures Sane(Wakened(s, h))
  {
    assert SameShape(s, Wakened(s, h));
    ShapeNumbered(s, Wakened(s, h));
  }

  lemma ExitKeeps(s: Sched, code: U32)
    requires Sane(s) && s.current >= 0
    ensures Sane(Left(s, code))
  {
    var gone := Exiting(s, code);
    assert SameShape(s, gone);
    ShapeNumbered(s, gone);
    SwitchKeeps(gone);
  }

  lemma FreshSlot(s: Sched)
    requires Numbered(s) && FirstFree(s.threads, 0) >= 0
    ensures FirstFree(s.threads, 0) == s.count < MAX_THREADS
  {
    var slot := FirstFree(s.threads, 0);
    assert s.threads[slot].state == Free;
    if s.count < MAX_THREADS {
      assert s.threads[s.count].state == Free;
    }
  }

  lemma NewKeepsTurn(s: Sched, t: Thread, z: Sched)
    requires Numbered(s) && OneRuns(s) && s.count < MAX_THREADS && (t.state == Ready || t.state == Suspended)
    requires z.threads == s.threads[s.count := t] && z.current == s.current && z.core == s.core
    ensures OneRuns(z)
  {
  }

  lemma NewKeepsNumbers(s: Sched, t: Thread, z: Sched)
    requires Numbered(s) && s.count < MAX_THREADS
    requires t.state != Free && t.handle == s.nextHandle && t.id == s.nextId
    requires t.stackBase == s.nextStack && t.stackSize == THREAD_STACK
    requires z.threads == s.threads[s.count := t] && z.count == s.count + 1
    requires z.nextHandle == s.nextHandle + 1 && z.nextId == s.nextId + 1 && z.nextStack == s.nextStack + STACK_STRIDE
    ensures Numbered(z)
  {
  }

  lemma NewThreadIs(s: Sched, start: U32, param: U32, suspended: bool)
    ensures var t := NewThread(s, start, param, suspended);
      && t.state == (if suspended then Suspended else Ready) && t.handle == s.nextHandle && t.id == s.nextId
      && t.stackBase == s.nextStack && t.stackSize == THREAD_STACK
  {
  }

  /** The new thread takes the first free slot, which is the next number. */
  lemma CreatedKeeps(s: Sched, start: U32, param: U32, suspended: bool)
    requires Sane(s) && FirstFree(s.threads, 0) >= 0
    ensures var z := Created(s, start, param, suspended);
      && Sane(z) && z.count == s.count + 1 && z.current == s.current
      && z.threads == s.threads[s.count := NewThread(s, start, param, suspended)]
  {
    FreshSlot(s);
    NumbersFit(s);
    NewThreadIs(s, start, param, suspended);
    CreatedIs(s, start, param, suspended);
    hide FirstFree, OneRuns, NewThread, Numbered, Created;
    var z, t := Created(s, start, param, suspended), NewThread(s, start, param, suspended);
    NewKeepsTurn(s, t, z);
    NewKeepsNumbers(s, t, z);
  }

  lemma CreatedIs(s: Sched, start: U32, param: U32, suspended: bool)
    requires FirstFree(s.threads, 0) == s.count
    requires s.nextHandle + 1 < TWO32 && s.nextId + 1 < TWO32 && s.nextStack + STACK_STRIDE < TWO32
    ensures Created(s, start, param, suspended)
         == s.(threads := s.threads[s.count := NewThread(s, start, param, suspended)], count := s.count + 1,
               nextId := s.nextId + 1, nextHandle := s.nextHandle + 1, nextStack := s.nextStack + STACK_STRIDE)
  {
    hide FirstFree, NewThread;
  }

  /** With a free slot left, no number can wrap. */
  lemma NumbersFit(s: Sched)
    requires Numbered(s) && s.count < MAX_THREADS
    ensures s.nextHandle + 1 < TWO32 && s.nextId + 1 < TWO32 && s.nextStack + STACK_STRIDE < TWO32
  {
  }

  lemma SpawnKeeps(y: Sys, start: U32, param: U32, suspended: bool, teb: U32)
    requires Sane(y.sched) && y.sched.current >= 0
    ensures Sane(Spawned(y, start, param, suspended, teb).sched)
  {
    var s := y.sched;
    if FirstFree(s.threads, 0) >= 0 {
      CreatedKeeps(s, start, param, suspended);
      hide FirstFree, Created, OneRuns;
      GivenKeeps(y.(sched := Created(s, start, param, suspended)), s.nextHandle, teb, s.count);
    }
  }

  lemma LocateNumbered(s: Sched, slot: nat)
    requires Numbered(s) && slot < s.count
    ensures Locate(s.threads, HandleOf(slot), 0) == slot
  {
    var l := Locate(s.threads, HandleOf(slot), 0);
    assert s.threads[slot].handle == HandleOf(slot) && s.threads[slot].state != Free;
    assert l >= 0;
    assert s.threads[l].handle == HandleOf(l);
  }

  lemma GivenKeeps(y: Sys, handle: U32, teb: U32, slot: nat)
    requires Sane(y.sched) && 1 <= slot < y.sched.count && handle == HandleOf(slot)
    requires y.sched.threads[slot].state != Running
    ensures Sane(Given(y, handle, teb).sched)
  {
    LocateNumbered(y.sched, slot);
    hide Locate;
    var z := Given(y, handle, teb).sched;
    assert SameShape(y.sched, z);
    ShapeNumbered(y.sched, z);
  }

  lemma ResumeKeeps(y: Sys, handle: U32)
    requires Sane(y.sched)
    ensures Sane(Resumed(y, handle).sched)
  {
    var z := Resumed(y, handle).sched;
    assert SameShape(y.sched, z);
    ShapeNumbered(y.sched, z);
  }

  /** Every action keeps the invariant. */
  lemma StepKeeps(y: Sys, a: Action)
    requires Sane(y.sched) && Enabled(y, a)
    ensures Sane(Step(y, a).sched)
  {
    hide Yielded, Awaiting, Left, Switched, Wakened, Spawned, Resumed;
    match a
    case Execute(_, _) => assert SameShape(y.sched, Step(y, a).sched); ShapeNumbered(y.sched, Step(y, a).sched);
    case Spawn(start, param, suspended, teb) => SpawnKeeps(y, start, param, suspended, teb);
    case Resume(thread) => ResumeKeeps(y, thread);
    case Yield => YieldKeeps(y.sched, Ready);
    case Wait(handle, timeout) =>
      AwaitKeeps(y.sched, handle, timeout);
      YieldKeeps(Awaiting(y.sched, handle, timeout), WaitState(timeout));
    case AwaitCompletion(limit) =>
      AwaitKeeps(y.sched, IOCP_HANDLE, limit);
      YieldKeeps(Awaiting(y.sched, IOCP_HANDLE, limit), Waiting);
    case Wake(handle) => WakeKeeps(y.sched, handle);
    case Exit(code) => ExitKeeps(y.sched, code);
    case Switch => SwitchKeeps(y.sched);
    case SetEvent(event) => WakeKeeps(y.sched, event);
    case _ =>
  }

  lemma {:induction false} RunKeeps(y: Sys, run: seq<Action>)
    requires Sane(y.sched) && Possible(y, run)
    ensures Sane(Run(y, run).sched)
    decreases |run|
  {
    if run != [] {
      StepKeeps(y, run[0]);
      RunKeeps(Step(y, run[0]), run[1..]);
    }
  }

  lemma BootedSane(teb: U32, core: Core)
    ensures Sane(Booted(teb, core).sched)
  {
  }

  /** From boot on: one thread runs at a time, no two threads share a handle or an id, and their
      stacks lie apart, with a guard gap, below the addresses where libraries are loaded. */
  lemma ThreadsApart(teb: U32, core: Core, run: seq<Action>, i: nat, j: nat)
    requires Possible(Booted(teb, core), run) && i < j < MAX_THREADS
    ensures var t := Run(Booted(teb, core), run).sched.threads;
      && !(t[i].state == Running && t[j].state == Running)
      && (t[i].state != Free && t[j].state != Free ==>
            && t[i].handle != t[j].handle && t[i].id != t[j].id
            && (i > 0 ==> t[i].stackBase + t[i].stackSize + 0x1000 <= t[j].stackBase)
            && t[j].stackBase + t[j].stackSize <= 0x6000_0000)
  {
    BootedSane(teb, core);
    RunKeeps(Booted(teb, core), run);
    var s := Run(Booted(teb, core), run).sched;
    if s.threads[i].state != Free && s.threads[j].state != Free {
      assert i < s.count && j < s.count;
      assert s.threads[i].handle == HandleOf(i) && s.threads[j].handle == HandleOf(j);
    }
  }

  /** The names and the stack of every thread there is, the main thread in slot 0 */
  lemma NamesAndStacks(teb: U32, core: Core, run: seq<Action>, i: nat)
    requires Possible(Booted(teb, core), run) && i < MAX_THREADS
    ensures var t := Run(Booted(teb, core), run).sched.threads[i];
      t.state != Free ==>
        && i < 32
        && t.handle == (if i == 0 then 0x7000 else 0x7100 + i - 1) && t.id == (if i == 0 then 1 else 0x1000 + i - 1)
        && (i > 0 ==> t.stackBase == 0x3000_0000 + 0x10_1000 * (i - 1) && t.stackSize == 0x10_0000)
  {
    BootedSane(teb, core);
    RunKeeps(Booted(teb, core), run);
  }

  /** Making the stack of a new thread writes in none of the others. */
  lemma NewStackApart(s: Sched, mem: seq<Byte>, param: U32, i: nat, q: nat)
    requires Numbered(s) && s.count < MAX_THREADS && |mem| >= TWO32 + THREAD_STACK
    requires 0 < i < s.count && s.threads[i].stackBase <= q < s.threads[i].stackBase + s.threads[i].stackSize
    ensures q < |mem| && StackMade(mem, s.nextStack, param)[q] == mem[q]
    ensures var r, sp := StackMade(mem, s.nextStack, param), s.nextStack + THREAD_STACK - 0x100;
      Word(r, sp) == 0 && Word(r, sp + 4) == param
  {
    StackHolds(mem, s.nextStack, param);
    hide StackMade, Word;
  }

  // ----- isolation -----

  /** What belongs to a slot alone: its saved registers and its thread-local values. */
  datatype Own = Own(regs: Regs, tls: TlsRow)

  function OwnOf(y: Sys, i: nat): Own
    requires i < MAX_THREADS
  {
    Own(y.sched.threads[i].regs, y.tls[i])
  }

  /** The registers in the slots that a switch does not enter stay as they are. */
  lemma SwitchIsolates(s: Sched, i: nat)
    requires i < MAX_THREADS
    ensures Switched(s).threads[i].regs == s.threads[i].regs
    ensures Switched(s).current == i && s.current != i ==> Switched(s).core == Loaded(s.threads[i].regs)
  {
    hide FirstReady;
  }

  lemma YieldIsolates(s: Sched, st: State, i: nat)
    requires OneRuns(s) && s.current >= 0 && i < MAX_THREADS && (st == Ready || st == Waiting)
    ensures i != s.current ==> Yielded(s, st).threads[i].regs == s.threads[i].regs
    ensures i == s.current ==> Yielded(s, st).threads[i].regs == Saved(s.threads[i].regs, s.core)
    ensures Yielded(s, st).current == i ==> Yielded(s, st).core == Loaded(Yielded(s, st).threads[i].regs)
  {
    hide Pick, Saved, Loaded;
  }

  lemma SpawnIsolates(y: Sys, start: U32, param: U32, suspended: bool, teb: U32, i: nat)
    requires Sane(y.sched) && y.sched.current >= 0 && i < y.sched.count
    ensures OwnOf(Spawned(y, start, param, suspended, teb), i) == OwnOf(y, i)
    ensures Spawned(y, start, param, suspended, teb).sched.current == y.sched.current
  {
    var s := y.sched;
    if FirstFree(s.threads, 0) >= 0 {
      CreatedKeeps(s, start, param, suspended);
      hide FirstFree, Created, OneRuns;
      LocateNumbered(Created(s, start, param, suspended), s.count);
      assert HandleOf(s.count) == s.nextHandle;
      hide Locate;
    }
  }

  /** Whatever another thread does, a slot that is away keeps what is its own; when it is entered
      again, the processor holds exactly its registers. */
  lemma AwayKeepsOwn(y: Sys, a: Action, i: nat)
    requires Sane(y.sched) && Enabled(y, a) && i < y.sched.count && y.sched.current != i
    ensures OwnOf(Step(y, a), i) == OwnOf(y, i)
    ensures Step(y, a).sched.current == i ==> Step(y, a).sched.core == Loaded(OwnOf(y, i).regs)
  {
    assert i < MAX_THREADS;
    hide Locate, FirstFree, Spawned, Created, Signalled, Yielded, Switched, Numbered, Woken, OneRuns;
    if Parks(y, a) {
      ParkIsolates(y, a, i);
    } else if a.Spawn? {
      SpawnIsolates(y, a.start, a.param, a.suspended, a.teb, i);
      SpawnTls(y, a.start, a.param, a.suspended, a.teb);
    } else if a.Exit? {
      SwitchIsolates(Exiting(y.sched, a.code), i);
    } else if a.Switch? {
      SwitchIsolates(y.sched, i);
    }
  }

  lemma ParkIsolates(y: Sys, a: Action, i: nat)
    requires Sane(y.sched) && Enabled(y, a) && Parks(y, a) && i < MAX_THREADS && y.sched.current != i
    ensures OwnOf(Step(y, a), i) == OwnOf(y, i)
    ensures Step(y, a).sched.current == i ==> Step(y, a).sched.core == Loaded(OwnOf(y, i).regs)
  {
    hide Signalled, Yielded, Numbered;
    match a
    case Yield => YieldIsolates(y.sched, Ready, i);
    case Wait(handle, timeout) =>
      AwaitKeeps(y.sched, handle, timeout);
      YieldIsolates(Awaiting(y.sched, handle, timeout), WaitState(timeout), i);
    case AwaitCompletion(limit) =>
      AwaitKeeps(y.sched, IOCP_HANDLE, limit);
      YieldIsolates(Awaiting(y.sched, IOCP_HANDLE, limit), Waiting, i);
  }

  lemma SpawnTls(y: Sys, start: U32, param: U32, suspended: bool, teb: U32)
    ensures Spawned(y, start, param, suspended, teb).tls == y.tls
  {
  }

  lemma CountGrows(y: Sys, a: Action)
    ensures Step(y, a).sched.count >= y.sched.count
  {
    hide Locate, FirstFree, Signalled, Pick;
  }

  /** The thread is not current before any action of the run. */
  predicate Away(y: Sys, run: seq<Action>, i: nat)
    decreases |run|
  {
    run == [] || (y.sched.current != i && Away(Step(y, run[0]), run[1..], i))
  }

  lemma {:induction false} AwayRun(y: Sys, run: seq<Action>, i: nat)
    requires Sane(y.sched) && Possible(y, run) && Away(y, run, i) && i < y.sched.count
    ensures OwnOf(Run(y, run), i) == OwnOf(y, i)
    ensures run != [] && Run(y, run).sched.current == i ==> Run(y, run).sched.core == Loaded(OwnOf(y, i).regs)
    decreases |run|
  {
    if run != [] {
      AwayKeepsOwn(y, run[0], i);
      StepKeeps(y, run[0]);
      CountGrows(y, run[0]);
      AwayRun(Step(y, run[0]), run[1..], i);
    }
  }

  /** The call gives the processor away, if another thread wants it. */
  predicate Parks(y: Sys, a: Action) {
    a.Yield? || a.AwaitCompletion? || (a.Wait? && !Signalled(y, a.handle) && a.timeout != 0)
  }

  lemma ParkSaves(y: Sys, a: Action, i: nat)
    requires Sane(y.sched) && y.sched.current == i && Parks(y, a)
    ensures OwnOf(Step(y, a), i) == Own(Saved(y.sched.threads[i].regs, y.sched.core), y.tls[i])
    ensures Step(y, a).sched.current == i ==> Step(y, a).sched.core == Loaded(OwnOf(Step(y, a), i).regs)
  {
    hide Signalled, Numbered;
    match a
    case Yield => YieldIsolates(y.sched, Ready, i);
    case Wait(handle, timeout) =>
      AwaitKeeps(y.sched, handle, timeout);
      YieldIsolates(Awaiting(y.sched, handle, timeout), WaitState(timeout), i);
    case AwaitCompletion(limit) =>
      AwaitKeeps(y.sched, IOCP_HANDLE, limit);
      YieldIsolates(Awaiting(y.sched, IOCP_HANDLE, limit), Waiting, i);
  }

  /** A thread that gave the processor away finds it, whenever it is next current, with the eight
      registers and the instruction pointer it had, its own FS base and its own thread-local values. */
  lemma ThreadResumes(y: Sys, park: Action, run: seq<Action>, i: nat)
    requires Sane(y.sched) && y.sched.current == i && Parks(y, park)
    requires Possible(Step(y, park), run) && Away(Step(y, park), run, i)
    requires Run(Step(y, park), run).sched.current == i
    ensures var z := Run(Step(y, park), run);
      && (forall j | 0 <= j < 8 :: z.sched.core.gpr[j] == y.sched.core.gpr[j] % TWO32)
      && z.sched.core.rip == y.sched.core.rip % TWO32 && z.sched.core.fsBase == y.sched.core.fsBase
      && z.tls[i] == y.tls[i]
  {
    ParkSaves(y, park, i);
    StepKeeps(y, park);
    CountGrows(y, park);
    AwayRun(Step(y, park), run, i);
  }

  // ----- fairness -----

  /** How many slots a scan from behind `current` visits up to slot `i`. */
  function Gap(current: int, i: nat): (d: int)
    requires -1 <= current < MAX_THREADS && i < MAX_THREADS && i != current
    ensures 1 <= d <= MAX_THREADS && (ScanFrom(current) + (d - 1)) % MAX_THREADS == i
  {
    if i > current then i - current else i - current + MAX_THREADS
  }

  /** A scan stops at the first ready slot, no later than at a given one. */
  lemma {:induction false} ScanStops(threads: Slots, start: nat, i: nat, d: nat) returns (k: nat)
    requires i <= d < MAX_THREADS && threads[(start + d) % MAX_THREADS].state == Ready
    ensures i <= k <= d && FirstReady(threads, start, i) == (start + k) % MAX_THREADS
    decreases MAX_THREADS - i
  {
    if threads[(start + i) % MAX_THREADS].state == Ready {
      k := i;
    } else {
      k := ScanStops(threads, start, i + 1, d);
    }
  }

  function SlotAt(start: nat, j: nat): (slot: nat)
    ensures slot < MAX_THREADS
  {
    (start + j) % MAX_THREADS
  }

  /** The slot is ready, and the first to be so in the order of the scan; -1 stands for none. */
  ghost predicate FirstFound(threads: Slots, start: nat, i: nat, slot: int) {
    if slot < 0 then
      slot == -1 && forall j: nat :: i <= j < MAX_THREADS ==> threads[SlotAt(start, j)].state != Ready
    else
      exists k: nat ::
        && i <= k < MAX_THREADS && slot == SlotAt(start, k) && threads[slot].state == Ready
        && forall j: nat :: i <= j < k ==> threads[SlotAt(start, j)].state != Ready
  }

  /** The scan yields the first ready slot in cyclic order, and only that. */
  lemma {:induction false} FirstReadyIs(threads: Slots, start: nat, i: nat, slot: int)
    requires i <= MAX_THREADS
    ensures FirstReady(threads, start, i) == slot <==> FirstFound(threads, start, i, slot)
    decreases MAX_THREADS - i
  {
    if i < MAX_THREADS {
      FirstReadyIs(threads, start, i + 1, slot);
      hide FirstReady;
      ScanOnce(threads, start, i);
      var here := SlotAt(start, i);
      if threads[here].state == Ready {
        FoundHere(threads, start, i, slot);
      } else {
        FoundLater(threads, start, i, slot);
      }
    }
  }

  lemma FoundHere(threads: Slots, start: nat, i: nat, slot: int)
    requires i < MAX_THREADS && threads[SlotAt(start, i)].state == Ready
    ensures FirstFound(threads, start, i, slot) <==> slot == SlotAt(start, i)
  {
    hide SlotAt;
  }

  lemma FoundLater(threads: Slots, start: nat, i: nat, slot: int)
    requires i < MAX_THREADS && threads[SlotAt(start, i)].state != Ready
    ensures FirstFound(threads, start, i, slot) <==> FirstFound(threads, start, i + 1, slot)
  {
    hide SlotAt;
    if slot >= 0 && FirstFound(threads, start, i, slot) {
      var k: nat :| && i <= k < MAX_THREADS && slot == SlotAt(start, k) && threads[slot].state == Ready
                    && forall j: nat :: i <= j < k ==> threads[SlotAt(start, j)].state != Ready;
      assert k != i;
    }
  }

  lemma GapShrinks(current: int, i: nat, k: nat)
    requires -1 <= current < MAX_THREADS && i < MAX_THREADS && i != current && k < Gap(current, i)
    ensures var p := (ScanFrom(current) + k) % MAX_THREADS;
      p != i ==> Gap(p, i) < Gap(current, i)
  {
    var p := (ScanFrom(current) + k) % MAX_THREADS;
    if ScanFrom(current) + k < MAX_THREADS {
      assert p == ScanFrom(current) + k;
    } else {
      assert p == ScanFrom(current) + k - MAX_THREADS;
    }
  }

  /** A scan that passes a ready slot over comes closer to it. */
  lemma ScanCloser(s: Sched, i: nat)
    requires -1 <= s.current < MAX_THREADS && i < MAX_THREADS && i != s.current && s.threads[i].state == Ready
    ensures Pick(s) >= 0
    ensures Pick(s) != i ==> Gap(Pick(s), i) < Gap(s.current, i)
  {
    hide FirstReady;
    var k := ScanStops(s.threads, ScanFrom(s.current), 0, Gap(s.current, i) - 1);
    GapShrinks(s.current, i, k);
    hide Gap, ScanFrom;
  }

  ghost function Live(s: Sched): set<int> {
    set i | 0 <= i < MAX_THREADS && s.threads[i].state != Exited
  }

  /** The action scans for a thread to run. */
  predicate Scans(y: Sys, a: Action) {
    Parks(y, a) || a.Exit? || a.Switch?
  }

  lemma YieldCloser(s: Sched, st: State, i: nat)
    requires OneRuns(s) && s.current >= 0 && (st == Ready || st == Waiting)
    requires i < MAX_THREADS && s.threads[i].state == Ready
    ensures Pick(Saving(s, st)) >= 0 && 0 <= Yielded(s, st).current < MAX_THREADS
    ensures Yielded(s, st).current != i ==>
              Yielded(s, st).threads[i].state == Ready && Gap(Yielded(s, st).current, i) < Gap(s.current, i)
    ensures Live(Yielded(s, st)) == Live(s)
  {
    hide Saved, Loaded, FirstReady;
    ScanCloser(Saving(s, st), i);
    hide Pick;
  }

  lemma ExitCloser(s: Sched, code: U32, i: nat)
    requires OneRuns(s) && s.current >= 0 && i < MAX_THREADS && s.threads[i].state == Ready
    ensures 0 <= Left(s, code).current < MAX_THREADS
    ensures Left(s, code).current != i ==> Left(s, code).threads[i].state == Ready
    ensures Live(Left(s, code)) == Live(s) - {s.current} && s.current in Live(s)
  {
    hide Loaded, FirstReady;
    var gone := Exiting(s, code);
    ScanCloser(gone, i);
    hide Pick;
    assert Live(gone) == Live(s) - {s.current};
    assert Live(Switched(gone)) == Live(gone);
  }

  lemma SpawnKeepsReady(y: Sys, start: U32, param: U32, suspended: bool, teb: U32, i: nat)
    requires Sane(y.sched) && y.sched.current >= 0 && i < MAX_THREADS && y.sched.threads[i].state == Ready
    ensures var z := Spawned(y, start, param, suspended, teb).sched;
      z.current == y.sched.current && z.threads[i].state == Ready && Live(z) == Live(y.sched)
  {
    if FirstFree(y.sched.threads, 0) >= 0 {
      var z := Created(y.sched, start, param, suspended);
      assert Live(z) == Live(y.sched) && z.current == y.sched.current && z.threads[i].state == Ready;
      GivenKeepsStates(y.(sched := z), y.sched.nextHandle, teb);
      hide FirstFree, Created, Given, Live;
    }
  }

  lemma GivenKeepsStates(y: Sys, handle: U32, teb: U32)
    ensures var z := Given(y, handle, teb).sched;
      && z.current == y.sched.current && Live(z) == Live(y.sched)
      && forall i :: 0 <= i < MAX_THREADS ==> z.threads[i].state == y.sched.threads[i].state
  {
    hide Locate;
  }

  /** What an action that does not scan leaves to a ready thread. */
  lemma OthersKeepReady(y: Sys, a: Action, i: nat)
    requires Sane(y.sched) && Enabled(y, a) && !Scans(y, a) && i < MAX_THREADS && y.sched.threads[i].state == Ready
    ensures Step(y, a).sched.current == y.sched.current && Step(y, a).sched.threads[i].state == Ready
    ensures Live(Step(y, a).sched) == Live(y.sched)
  {
    hide Locate, FirstFree, Spawned, Created, Signalled, Numbered, OneRuns, Yielded;
    match a
    case Spawn(start, param, suspended, teb) =>
      SpawnKeepsReady(y, start, param, suspended, teb, i);
    case _ =>
  }

  lemma LiveBound(s: Sched)
    ensures |Live(s)| <= MAX_THREADS
  {
    SubsetSize(Live(s), Below(MAX_THREADS));
  }

  ghost function Below(n: nat): (b: set<int>)
    ensures forall i :: i in b <==> 0 <= i < n
    ensures |b| == n
  {
    if n == 0 then {} else Below(n - 1) + {n - 1}
  }

  lemma {:induction false} SubsetSize<T>(a: set<T>, b: set<T>)
    requires a <= b
    ensures |a| <= |b|
    decreases a
  {
    if a != {} {
      var x :| x in a;
      SubsetSize(a - {x}, b - {x});
    }
  }

  lemma ParkCloser(y: Sys, a: Action, i: nat)
    requires Sane(y.sched) && Enabled(y, a) && Parks(y, a) && i < MAX_THREADS && y.sched.threads[i].state == Ready
    requires Step(y, a).sched.current != i
    ensures -1 <= Step(y, a).sched.current < MAX_THREADS && Step(y, a).sched.threads[i].state == Ready
    ensures Live(Step(y, a).sched) == Live(y.sched)
    ensures Gap(Step(y, a).sched.current, i) < Gap(y.sched.current, i)
  {
    hide Yielded, Gap, Signalled, Numbered, Pick, Saving;
    match a
    case Yield => YieldCloser(y.sched, Ready, i);
    case Wait(handle, timeout) =>
      AwaitKeeps(y.sched, handle, timeout);
      YieldCloser(Awaiting(y.sched, handle, timeout), WaitState(timeout), i);
      assert Live(Awaiting(y.sched, handle, timeout)) == Live(y.sched);
    case AwaitCompletion(limit) =>
      AwaitKeeps(y.sched, IOCP_HANDLE, limit);
      YieldCloser(Awaiting(y.sched, IOCP_HANDLE, limit), Waiting, i);
      assert Live(Awaiting(y.sched, IOCP_HANDLE, limit)) == Live(y.sched);
  }

  lemma SwitchCloser(s: Sched, i: nat)
    requires OneRuns(s) && s.current == -1 && i < MAX_THREADS && s.threads[i].state == Ready
    requires Switched(s).current != i
    ensures -1 <= Switched(s).current < MAX_THREADS && Switched(s).threads[i].state == Ready
    ensures Live(Switched(s)) == Live(s)
    ensures Gap(Switched(s).current, i) < Gap(s.current, i)
  {
    ScanCloser(s, i);
    hide Pick, Gap, Loaded;
  }

  lemma StepCloser(y: Sys, a: Action, i: nat)
    requires Sane(y.sched) && Enabled(y, a) && i < MAX_THREADS && y.sched.threads[i].state == Ready
    requires Step(y, a).sched.current != i
    ensures -1 <= Step(y, a).sched.current < MAX_THREADS && Step(y, a).sched.threads[i].state == Ready
    ensures |Live(Step(y, a).sched)| == |Live(y.sched)| - (if a.Exit? then 1 else 0)
    ensures !a.Exit? ==> Gap(Step(y, a).sched.current, i) + (if Scans(y, a) then 1 else 0) <= Gap(y.sched.current, i)
  {
    hide Gap, Live, Yielded, Spawned, Numbered;
    if Parks(y, a) {
      ParkCloser(y, a, i);
    } else if a.Exit? {
      ExitCloser(y.sched, a.code, i);
    } else if a.Switch? {
      SwitchCloser(y.sched, i);
    } else {
      OthersKeepReady(y, a, i);
    }
  }

  /** The scans of a run, and the exits among them */
  function ScanCount(y: Sys, run: seq<Action>): nat
    decreases |run|
  {
    if run == [] then 0
    else (if Scans(y, run[0]) then 1 else 0) + ScanCount(Step(y, run[0]), run[1..])
  }

  function ExitCount(run: seq<Action>): nat
    decreases |run|
  {
    if run == [] then 0 else (if run[0].Exit? then 1 else 0) + ExitCount(run[1..])
  }

  /** The thread is not current at any point of the run. */
  predicate Passed(y: Sys, run: seq<Action>, i: nat)
    decreases |run|
  {
    y.sched.current != i && (run == [] || Passed(Step(y, run[0]), run[1..], i))
  }

  /** A ready thread that is passed over stays ready, every scan without an exit brings its turn
      closer, and every exit is paid for by a thread that never comes back. */
  lemma {:induction false} PassedOver(y: Sys, run: seq<Action>, i: nat)
    requires Sane(y.sched) && Possible(y, run) && Passed(y, run, i)
    requires i < MAX_THREADS && y.sched.threads[i].state == Ready
    ensures Run(y, run).sched.threads[i].state == Ready
    ensures -1 <= Run(y, run).sched.current < MAX_THREADS && Run(y, run).sched.current != i
    ensures ScanCount(y, run) + Gap(Run(y, run).sched.current, i)
            <= Gap(y.sched.current, i) + MAX_THREADS * ExitCount(run)
    ensures |Live(Run(y, run).sched)| + ExitCount(run) == |Live(y.sched)|
    decreases |run|
  {
    if run != [] {
      StepKeeps(y, run[0]);
      assert Step(y, run[0]).sched.current != i;
      StepCloser(y, run[0], i);
      PassedOver(Step(y, run[0]), run[1..], i);
    }
  }

  /** Bounded waiting: without exits, fewer than thirty-two scans pass a ready thread over; with
      exits, a number of scans that is bounded once and for all. */
  lemma BoundedWaiting(y: Sys, run: seq<Action>, i: nat)
    requires Sane(y.sched) && Possible(y, run) && Passed(y, run, i)
    requires i < MAX_THREADS && y.sched.threads[i].state == Ready
    ensures ExitCount(run) == 0 ==> ScanCount(y, run) < 32
    ensures ScanCount(y, run) < 32 * (1 + |Live(y.sched)|) <= 32 * 33
  {
    PassedOver(y, run, i);
    LiveBound(y.sched);
  }
}
