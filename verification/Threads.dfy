/**
 The cooperative scheduler: thirty-two thread slots that take turns on one emulated
 processor. The class works in place as the engine does; the functions beside it give
 the meaning of each operation on a snapshot of the slots and the processor.
 */
module Threads {
  import opened Numeric
  import opened Patching

  const MAX_THREADS := 32
  const THREAD_STACK: U32 := 0x10_0000
  const STACK_STRIDE: U32 := 0x10_1000
  const FIRST_STACK: U32 := 0x3000_0000
  const FIRST_ID: U32 := 0x1000
  const FIRST_HANDLE: U32 := 0x7100
  const MAIN_ID: U32 := 1
  const MAIN_HANDLE: U32 := 0x7000
  const STILL_ACTIVE: U32 := 259
  const CREATE_SUSPENDED := 0x4

  type U64 = n: int | 0 <= n < 0x1_0000_0000_0000_0000 witness 0
  type Gprs = g: seq<U32> | |g| == 8 witness [0, 0, 0, 0, 0, 0, 0, 0]
  type WideGprs = g: seq<U64> | |g| == 8 witness [0, 0, 0, 0, 0, 0, 0, 0]

  const ZEROES: Gprs := [0, 0, 0, 0, 0, 0, 0, 0]

  datatype State = Free | Running | Ready | Waiting | Suspended | Exited

  datatype Regs = Regs(gpr: Gprs, rip: U32, fsBase: U32)

  datatype Thread = Thread(state: State, id: U32, handle: U32, stackBase: U32, stackSize: U32, teb: U32,
                           startAddr: U32, param: U32, exitCode: U32, waitHandle: U32, waitTimeout: U32, regs: Regs)

  const BLANK := Thread(Free, 0, 0, 0, 0, 0, 0, 0, 0, 0, 0, Regs(ZEROES, 0, 0))

  /** What the scheduler sees of the processor. */
  datatype Core = Core(gpr: WideGprs, rip: U64, fsBase: U64)

  type Slots = t: seq<Thread> | |t| == MAX_THREADS witness seq(MAX_THREADS, i => BLANK)

  datatype Sched = Sched(threads: Slots, current: int, count: nat,
                         nextId: U32, nextHandle: U32, nextStack: U32, core: Core)

  // ----- meaning of the operations -----

  function Low(x: U64): U32 {
    x % TWO32
  }

  function LowAll(g: WideGprs): Gprs {
    seq(8, i requires 0 <= i < 8 => Low(g[i]))
  }

  /** Saving keeps the FS base that the thread was given. */
  function Saved(regs: Regs, core: Core): Regs {
    Regs(LowAll(core.gpr), Low(core.rip), regs.fsBase)
  }

  function Loaded(regs: Regs): Core {
    Core(regs.gpr, regs.rip, regs.fsBase)
  }

  function Saving(s: Sched, st: State): Sched {
    if 0 <= s.current < MAX_THREADS then
      var t := s.threads[s.current];
      s.(threads := s.threads[s.current := t.(regs := Saved(t.regs, s.core), state := st)])
    else s
  }

  function ScanFrom(current: int): nat {
    if current >= 0 then current + 1 else 0
  }

  /** The slot that a scan of all slots from `start` on, `i` of them done, finds ready; -1 for none. */
  function FirstReady(threads: Slots, start: nat, i: nat): (slot: int)
    requires i <= MAX_THREADS
    ensures -1 <= slot < MAX_THREADS
    ensures slot >= 0 ==> threads[slot].state == Ready
    decreases MAX_THREADS - i
  {
    if i == MAX_THREADS then -1
    else
      var slot := (start + i) % MAX_THREADS;
      if threads[slot].state == Ready then slot else FirstReady(threads, start, i + 1)
  }

  lemma ScanOnce(threads: Slots, start: nat, i: nat)
    requires i < MAX_THREADS
    ensures var slot := (start + i) % MAX_THREADS;
      FirstReady(threads, start, i) == if threads[slot].state == Ready then slot else FirstReady(threads, start, i + 1)
  {
  }

  lemma ScanOver(threads: Slots, start: nat)
    ensures FirstReady(threads, start, MAX_THREADS) == -1
  {
  }

  function Pick(s: Sched): (slot: int)
    ensures -1 <= slot < MAX_THREADS
    ensures slot >= 0 ==> s.threads[slot].state == Ready
  {
    FirstReady(s.threads, ScanFrom(s.current), 0)
  }

  function Dispatched(s: Sched, slot: int): Sched
    requires 0 <= slot < MAX_THREADS
  {
    var t := s.threads[slot];
    s.(current := slot, threads := s.threads[slot := t.(state := Running)], core := Loaded(t.regs))
  }

  function Switched(s: Sched): Sched {
    if Pick(s) < 0 then s else Dispatched(s, Pick(s))
  }

  function Yielded(s: Sched, st: State): Sched {
    var saved := Saving(s, st);
    if Pick(saved) >= 0 then Dispatched(saved, Pick(saved))
    else if 0 <= s.current < MAX_THREADS then Dispatched(saved, s.current)
    else saved
  }

  function Woken(t: Thread, handle: U32): Thread {
    if t.state == Waiting && t.waitHandle == handle then t.(state := Ready, waitHandle := 0) else t
  }

  function Wakened(s: Sched, handle: U32): Sched {
    s.(threads := seq(MAX_THREADS, i requires 0 <= i < MAX_THREADS => Woken(s.threads[i], handle)))
  }

  function Exiting(s: Sched, exitCode: U32): Sched
    requires 0 <= s.current < MAX_THREADS
  {
    var t := s.threads[s.current].(state := Exited, exitCode := exitCode);
    s.(threads := s.threads[s.current := t], current := -1)
  }

  function Left(s: Sched, exitCode: U32): Sched {
    if 0 <= s.current < MAX_THREADS then Switched(Exiting(s, exitCode)) else s
  }

  function FirstFree(threads: Slots, i: nat): (slot: int)
    requires i <= MAX_THREADS
    ensures slot == -1 || i <= slot < MAX_THREADS
    ensures slot >= 0 ==> threads[slot].state == Free && forall j :: i <= j < slot ==> threads[j].state != Free
    ensures slot < 0 ==> forall j :: i <= j < MAX_THREADS ==> threads[j].state != Free
    decreases MAX_THREADS - i
  {
    if i == MAX_THREADS then -1
    else if threads[i].state == Free then i
    else FirstFree(threads, i + 1)
  }

  function StackTop(base: U32): U32 {
    (base + THREAD_STACK - 0x100) % TWO32
  }

  function Zeroed(mem: seq<Byte>, at: nat, n: nat): (r: seq<Byte>)
    requires at + n <= |mem|
    ensures |r| == |mem|
    ensures forall i :: 0 <= i < |mem| ==> r[i] == if at <= i < at + n then 0 else mem[i]
  {
    seq<Byte>(|mem|, i requires 0 <= i < |mem| => if at <= i < at + n then 0 else mem[i])
  }

  lemma ZeroedNone(mem: seq<Byte>, at: nat)
    requires at <= |mem|
    ensures Zeroed(mem, at, 0) == mem
  {
  }

  lemma ZeroedNext(mem: seq<Byte>, at: nat, n: nat)
    requires at + n < |mem|
    ensures Zeroed(mem, at, n + 1) == Zeroed(mem, at, n)[at + n := 0]
  {
  }

  /** The guest's memory with a stack at `base`: zero but for the parameter above the return address. */
  function StackMade(mem: seq<Byte>, base: U32, param: U32): (r: seq<Byte>)
    requires |mem| >= TWO32 + THREAD_STACK
    ensures |r| == |mem|
  {
    var sp := StackTop(base);
    Put(Put(Zeroed(mem, base, THREAD_STACK), sp, 0), (sp + 4) % TWO32, param)
  }

  lemma StackMadeIs(mem: seq<Byte>, base: U32, param: U32)
    requires |mem| >= TWO32 + THREAD_STACK
    ensures var sp := (base + THREAD_STACK - 0x100) % TWO32;
      StackMade(mem, base, param) == Put(Put(Zeroed(mem, base, THREAD_STACK), sp, 0), (sp + 4) % TWO32, param)
  {
    hide Put, Zeroed;
  }

  /** A stack that does not wrap holds the return address and the parameter, and nothing outside it changes. */
  lemma StackHolds(mem: seq<Byte>, base: U32, param: U32)
    requires |mem| >= TWO32 + THREAD_STACK && base + THREAD_STACK <= TWO32
    ensures var r, sp := StackMade(mem, base, param), base + THREAD_STACK - 0x100;
      && StackTop(base) == sp && Word(r, sp) == 0 && Word(r, sp + 4) == param
      && forall i :: 0 <= i < |mem| && !(base <= i < base + THREAD_STACK) ==> r[i] == mem[i]
  {
    StackPushed(mem, base, param);
    hide StackMade, StackTop;
  }

  /** What the two words are, on top of zeroes */
  lemma StackPushed(mem: seq<Byte>, base: U32, param: U32)
    requires |mem| >= TWO32 + THREAD_STACK && base + THREAD_STACK <= TWO32
    ensures var r, sp := StackMade(mem, base, param), base + THREAD_STACK - 0x100;
      && StackTop(base) == sp && Word(r, sp) == 0 && Word(r, sp + 4) == param
      && forall i :: 0 <= i < |mem| && !(sp <= i < sp + 8) ==> r[i] == Zeroed(mem, base, THREAD_STACK)[i]
  {
    var sp := base + THREAD_STACK - 0x100;
    var z := Zeroed(mem, base, THREAD_STACK);
    hide Put, Zeroed;
    assert StackTop(base) == sp && StackMade(mem, base, param) == Put(Put(z, sp, 0), sp + 4, param);
    hide StackMade, StackTop;
    TwoWords(z, sp, param);
  }

  lemma TwoWords(z: seq<Byte>, sp: nat, param: U32)
    requires sp + 8 <= |z|
    ensures var r := Put(Put(z, sp, 0), sp + 4, param);
      && Word(r, sp) == 0 && Word(r, sp + 4) == param
      && forall i :: 0 <= i < |z| && !(sp <= i < sp + 8) ==> r[i] == z[i]
  {
    hide Put, Word;
    PutWord(z, sp, 0);
    PutWord(Put(z, sp, 0), sp + 4, param);
    PutApart(Put(z, sp, 0), sp + 4, param, sp);
  }

  function FsOf(s: Sched): U32 {
    if 0 <= s.current < MAX_THREADS then s.threads[s.current].regs.fsBase else 0
  }

  function NewThread(s: Sched, start: U32, param: U32, suspended: bool): Thread {
    var sp := StackTop(s.nextStack);
    Thread(if suspended then Suspended else Ready, s.nextId, s.nextHandle, s.nextStack, THREAD_STACK, FsOf(s),
           start, param, STILL_ACTIVE, 0, 0, Regs([0, 0, 0, 0, sp, sp, 0, 0], start, FsOf(s)))
  }

  function Created(s: Sched, start: U32, param: U32, suspended: bool): Sched {
    var slot := FirstFree(s.threads, 0);
    if slot < 0 then s
    else
      s.(threads := s.threads[slot := NewThread(s, start, param, suspended)], count := s.count + 1,
         nextId := (s.nextId + 1) % TWO32, nextHandle := (s.nextHandle + 1) % TWO32,
         nextStack := (s.nextStack + STACK_STRIDE) % TWO32)
  }

  function Locate(threads: Slots, handle: U32, i: nat): (slot: int)
    requires i <= MAX_THREADS
    ensures slot == -1 || i <= slot < MAX_THREADS
    ensures slot >= 0 ==>
              && threads[slot].handle == handle && threads[slot].state != Free
              && forall j :: i <= j < slot ==> threads[j].handle == handle ==> threads[j].state == Free
    ensures slot < 0 ==> forall j :: i <= j < MAX_THREADS ==> threads[j].handle == handle ==> threads[j].state == Free
    decreases MAX_THREADS - i
  {
    if i == MAX_THREADS then -1
    else if threads[i].handle == handle && threads[i].state != Free then i
    else Locate(threads, handle, i + 1)
  }

  // ----- the scheduler -----

  class Cpu {
    const gpr: array<U64>
    var rip: U64
    var fsBase: U64

    constructor ()
      ensures gpr.Length == 8 && fresh(gpr)
    {
      gpr := new U64[8](i => 0);
      rip, fsBase := 0, 0;
    }

    ghost function View(): Core
      requires gpr.Length == 8
      reads this, gpr
    {
      Core(gpr[..], rip, fsBase)
    }
  }

  class Scheduler {
    const threads: array<Thread>
    const cpu: Cpu
    var current: int
    var count: nat
    var nextId: U32
    var nextHandle: U32
    var nextStackAddr: U32

    ghost predicate Valid()
      reads this
    {
      threads.Length == MAX_THREADS && -1 <= current < MAX_THREADS && cpu.gpr.Length == 8
    }

    ghost function View(): Sched
      requires Valid()
      reads this, threads, cpu, cpu.gpr
    {
      Sched(threads[..], current, count, nextId, nextHandle, nextStackAddr, cpu.View())
    }

    /** wg_sched_create */
    constructor (cpu: Cpu)
      requires cpu.gpr.Length == 8
      ensures Valid() && fresh(threads) && this.cpu == cpu
      ensures View() == Sched(seq(MAX_THREADS, i => BLANK), -1, 0, FIRST_ID, FIRST_HANDLE, FIRST_STACK, cpu.View())
    {
      threads := new Thread[MAX_THREADS](i => BLANK);
      this.cpu := cpu;
      current, count := -1, 0;
      nextId, nextHandle, nextStackAddr := FIRST_ID, FIRST_HANDLE, FIRST_STACK;
      new;
      assert threads[..] == seq(MAX_THREADS, i => BLANK);
    }

    method SaveRegs(slot: nat)
      requires Valid() && slot < MAX_THREADS
      modifies threads
      ensures var t := old(threads[slot]);
        threads[..] == old(threads[..])[slot := t.(regs := Saved(t.regs, cpu.View()))]
    {
      var regs := threads[slot].regs;
      for i := 0 to 8
        invariant regs == threads[slot].regs.(gpr := LowAll(cpu.gpr[..])[..i] + threads[slot].regs.gpr[i..])
      {
        regs := regs.(gpr := regs.gpr[i := cpu.gpr[i] % TWO32]);
        assert regs.gpr == LowAll(cpu.gpr[..])[..i + 1] + threads[slot].regs.gpr[i + 1..];
      }
      assert regs.gpr == LowAll(cpu.gpr[..]);
      regs := regs.(rip := cpu.rip % TWO32);
      threads[slot] := threads[slot].(regs := regs);
    }

    method RestoreRegs(slot: nat)
      requires Valid() && slot < MAX_THREADS
      modifies cpu, cpu.gpr
      ensures cpu.View() == Loaded(threads[slot].regs)
    {
      for i := 0 to 8
        invariant forall j :: 0 <= j < i ==> cpu.gpr[j] == threads[slot].regs.gpr[j]
      {
        cpu.gpr[i] := threads[slot].regs.gpr[i];
      }
      assert cpu.gpr[..] == threads[slot].regs.gpr;
      cpu.rip := threads[slot].regs.rip;
      cpu.fsBase := threads[slot].regs.fsBase;
    }

    /** The first free slot */
    method FreeSlot() returns (slot: int)
      requires Valid()
      ensures slot == FirstFree(threads[..], 0)
    {
      slot := -1;
      for i := 0 to MAX_THREADS
        invariant slot == -1 && FirstFree(threads[..], 0) == FirstFree(threads[..], i)
      {
        if threads[i].state == Free {
          slot := i;
          break;
        }
      }
    }

    /** Maps a zeroed stack and pushes the parameter and a return address of 0. */
    method MakeStack(mem: array<Byte>, base: U32, param: U32)
      requires mem.Length >= TWO32 + THREAD_STACK
      modifies mem
      ensures mem[..] == StackMade(old(mem[..]), base, param)
    {
      ghost var was := mem[..];
      hide Put, Zeroed, StackMade, StackTop;
      ZeroedNone(was, base);
      for i := 0 to THREAD_STACK
        invariant mem[..] == Zeroed(was, base, i)
      {
        ZeroedNext(was, base, i);
        mem[base + i] := 0;
      }
      StackMadeIs(was, base, param);
      var sp := (base + THREAD_STACK - 0x100) % TWO32;
      WriteWord(mem, sp, 0);
      WriteWord(mem, (sp + 4) % TWO32, param);
    }

    /** wg_sched_create_thread: the handle of the new thread, or 0 when every slot is in use */
    method CreateThread(startAddr: U32, param: U32, flags: U32, mem: array<Byte>) returns (handle: U32, tid: U32)
      requires Valid() && mem.Length >= TWO32 + THREAD_STACK
      modifies this`count, this`nextId, this`nextHandle, this`nextStackAddr, threads, mem
      ensures Valid() && View() == Created(old(View()), startAddr, param, flags / CREATE_SUSPENDED % 2 == 1)
      ensures if FirstFree(old(threads[..]), 0) < 0 then handle == 0 && tid == 0 && mem[..] == old(mem[..])
              else
                && handle == old(nextHandle) && tid == old(nextId)
                && mem[..] == StackMade(old(mem[..]), old(nextStackAddr), param)
      ensures var slot := FirstFree(old(threads[..]), 0);
        slot >= 0 ==>
          var sp := (old(nextStackAddr) + 0x10_0000 - 0x100) % TWO32;
          && threads[slot].regs.rip == startAddr && threads[slot].regs.gpr == [0, 0, 0, 0, sp, sp, 0, 0]
          && threads[slot].regs.fsBase == if current >= 0 then old(threads[current].regs.fsBase) else 0
    {
      hide StackMade, Zeroed, Put, FirstFree;
      var slot := FreeSlot();
      if slot < 0 {
        return 0, 0;
      }
      var t := BLANK;
      t := t.(id := nextId, handle := nextHandle, startAddr := startAddr, param := param, exitCode := STILL_ACTIVE);
      nextId, nextHandle := (nextId + 1) % TWO32, (nextHandle + 1) % TWO32;
      t := t.(stackBase := nextStackAddr, stackSize := THREAD_STACK);
      nextStackAddr := (nextStackAddr + (THREAD_STACK + 0x1000)) % TWO32;
      MakeStack(mem, t.stackBase, param);
      var sp: U32 := (t.stackBase + t.stackSize - 0x100) % TWO32;
      var fsBase := if current >= 0 then threads[current].regs.fsBase else 0;
      t := t.(regs := Regs([0, 0, 0, 0, sp, sp, 0, 0], startAddr, fsBase), teb := fsBase);
      t := t.(state := if flags / CREATE_SUSPENDED % 2 == 1 then Suspended else Ready);
      threads[slot] := t;
      count := count + 1;
      return t.handle, t.id;
    }

    /** wg_sched_save_current */
    method SaveCurrent(newState: State)
      requires Valid()
      modifies threads
      ensures View() == Saving(old(View()), newState)
    {
      if current < 0 {
        return;
      }
      SaveRegs(current);
      threads[current] := threads[current].(state := newState);
    }

    /** The slot runs: it is current, and the processor holds its registers. */
    method Enter(idx: nat)
      requires Valid() && idx < MAX_THREADS
      modifies this`current, threads, cpu, cpu.gpr
      ensures Valid() && View() == Dispatched(old(View()), idx)
    {
      current := idx;
      threads[idx] := threads[idx].(state := Running);
      RestoreRegs(idx);
    }

    /** The first ready slot from `start` on, around the end */
    method NextReady(start: nat) returns (idx: int)
      requires Valid()
      ensures idx == FirstReady(threads[..], start, 0)
    {
      hide FirstReady;
      for i := 0 to MAX_THREADS
        invariant FirstReady(threads[..], start, 0) == FirstReady(threads[..], start, i)
      {
        ScanOnce(threads[..], start, i);
        idx := (start + i) % MAX_THREADS;
        if threads[idx].state == Ready {
          return;
        }
      }
      ScanOver(threads[..], start);
      idx := -1;
    }

    /** wg_sched_switch_next */
    method SwitchNext() returns (switched: bool)
      requires Valid()
      modifies this`current, threads, cpu, cpu.gpr
      ensures Valid() && View() == Switched(old(View())) && switched == (Pick(old(View())) >= 0)
    {
      hide Dispatched, FirstReady;
      var idx := NextReady(if current >= 0 then current + 1 else 0);
      switched := idx >= 0;
      if switched {
        Enter(idx);
      }
    }

    /** wg_sched_yield */
    method Yield(blockReason: State) returns (switched: bool)
      requires Valid()
      modifies this`current, threads, cpu, cpu.gpr
      ensures Valid() && View() == Yielded(old(View()), blockReason)
      ensures switched == (Pick(Saving(old(View()), blockReason)) >= 0)
    {
      SaveCurrent(blockReason);
      switched := SwitchNext();
      if !switched && current >= 0 {
        Enter(current);
      }
    }

    /** wg_sched_wake */
    method Wake(handle: U32)
      requires Valid()
      modifies threads
      ensures View() == Wakened(old(View()), handle)
    {
      ghost var was := threads[..];
      for i := 0 to MAX_THREADS
        invariant forall j :: 0 <= j < i ==> threads[j] == Woken(was[j], handle)
        invariant forall j :: i <= j < MAX_THREADS ==> threads[j] == was[j]
      {
        if threads[i].state == Waiting && threads[i].waitHandle == handle {
          threads[i] := threads[i].(state := Ready, waitHandle := 0);
        }
      }
      assert threads[..] == Wakened(old(View()), handle).threads;
    }

    /** wg_sched_exit_thread */
    method ExitThread(exitCode: U32)
      requires Valid()
      modifies this`current, threads, cpu, cpu.gpr
      ensures Valid() && View() == Left(old(View()), exitCode)
    {
      if current < 0 {
        return;
      }
      threads[current] := threads[current].(state := Exited, exitCode := exitCode);
      current := -1;
      var _ := SwitchNext();
    }

    /** wg_sched_find */
    method Find(handle: U32) returns (slot: int)
      requires Valid()
      ensures slot == Locate(threads[..], handle, 0)
    {
      for i := 0 to MAX_THREADS
        invariant Locate(threads[..], handle, 0) == Locate(threads[..], handle, i)
      {
        if threads[i].handle == handle && threads[i].state != Free {
          return i;
        }
      }
      return -1;
    }
  }
}
