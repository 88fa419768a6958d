/** The invariant of the kernel, kept by every event and so by every run from boot. */
module KernelInvariant {
  import opened Options
  import opened Isa
  import opened Paging
  import opened AddressSpaces
  import opened Kernel

  /** The record of one process. */
  ghost predicate GoodProc(p: Proc, nextPid: nat) {
    && p.quantum < 5
    && (p.status == Blocked <==> p.sleep > 0)
    && (p.id == 0 ==> p.status != Blocked)
    && p.id <= nextPid
  }

  /** All records are good, and no two share an identifier other than 0. */
  ghost predicate Table(procs: map<Addr, Proc>, nextPid: nat) {
    && (forall a :: a in procs ==> GoodProc(procs[a], nextPid))
    && (forall a, b :: a in procs && b in procs && a != b && procs[a].id == procs[b].id ==> procs[a].id == 0)
  }

  /** Only the given process may be marked as running. */
  ghost predicate RunsAtMost(procs: map<Addr, Proc>, current: Option<Addr>) {
    forall a :: a in procs && procs[a].status == Running ==> current == Some(a)
  }

  /** All that does not depend on which process is current. */
  ghost predicate Core(s: State) {
    Linked(s) && VmInv(s.vm) && s.procs[s.idle].id == 0 && s.nextPid < 0x1_0000 && Table(s.procs, s.nextPid)
  }

  /** Between events: exactly one process is marked as running, it is the current one, and the
      processor translates with its page table. */
  ghost predicate Inv(s: State) {
    && Core(s)
    && s.current == Some(s.mmu) && s.mmu in s.procs
    && RunsAtMost(s.procs, s.current) && s.procs[s.mmu].status == Running
  }

  lemma TableUpdate(procs: map<Addr, Proc>, nextPid: nat, c: Addr, p: Proc)
    requires Table(procs, nextPid) && c in procs && GoodProc(p, nextPid) && p.id == procs[c].id
    ensures Table(procs[c := p], nextPid)
  {
  }

  lemma TableProc(procs: map<Addr, Proc>, nextPid: nat, a: Addr)
    requires Table(procs, nextPid) && a in procs
    ensures GoodProc(procs[a], nextPid)
  {
  }

  lemma TableTick(procs: map<Addr, Proc>, nextPid: nat)
    requires Table(procs, nextPid)
    ensures Table(TickAll(procs), nextPid)
  {
  }

  lemma TableRemove(procs: map<Addr, Proc>, nextPid: nat, a: Addr)
    requires Table(procs, nextPid)
    ensures Table(procs - {a}, nextPid)
  {
  }

  lemma TableAdd(procs: map<Addr, Proc>, nextPid: nat, a: Addr, p: Proc)
    requires Table(procs, nextPid) && a !in procs
    requires GoodProc(p, nextPid + 1) && (p.id == 0 || p.id == nextPid + 1)
    ensures Table(procs[a := p], nextPid + 1)
    ensures p.id == 0 ==> Table(procs[a := p], nextPid)
  {
  }

  // ---------- scheduling ----------

  lemma SaveKeeps(s: State)
    requires Core(s) && RunsAtMost(s.procs, s.current)
    ensures Core(SaveContext(s)) && RunsAtMost(SaveContext(s).procs, None)
  {
    hide Within, Distinct, VmInv, Table;
    if s.current.Some? {
      TableProc(s.procs, s.nextPid, s.current.value);
      TableUpdate(s.procs, s.nextPid, s.current.value, SaveContext(s).procs[s.current.value]);
    }
  }

  lemma RestoreKeeps(s: State, a: Addr)
    requires Core(s) && a in s.procs && s.procs[a].status != Blocked && RunsAtMost(s.procs, None)
    ensures Inv(RestoreContext(s, a))
  {
    hide Within, Distinct, VmInv, Table;
    TableProc(s.procs, s.nextPid, a);
    TableUpdate(s.procs, s.nextPid, a, s.procs[a].(status := Running));
  }

  lemma DispatchKeeps(s: State)
    requires Core(s) && RunsAtMost(s.procs, None)
    ensures Inv(Dispatch(s))
  {
    hide Within, Distinct, VmInv, Table, RestoreContext, RunsAtMost;
    var start := CursorIndex(s);
    var d := Search(s.procs, s.order, start, 1);
    if d <= |s.order| {
      var a := At(s.order, start, d);
      RestoreKeeps(s.(cursor := Some(a)), a);
    } else {
      TableProc(s.procs, s.nextPid, s.idle);
      RestoreKeeps(s.(cursor := Some(s.order[start])), s.idle);
    }
  }

  lemma ScheduleKeeps(s: State)
    requires Core(s) && RunsAtMost(s.procs, s.current)
    ensures Inv(Schedule(s))
  {
    SaveKeeps(s);
    DispatchKeeps(SaveContext(s));
  }

  // ---------- processes ----------

  lemma DestroyRecords(s: State, a: Addr)
    requires Linked(s) && a in s.procs && a != s.idle && s.current != Some(a)
    ensures var r := Destroy(s, a);
            && |r.order| == |s.order| - 1 && r.procs == s.procs - {a} && r.vm == Remove(s.vm, a)
            && r.current == s.current && r.idle == s.idle && r.gprs == s.gprs && r.pc == s.pc && r.nextPid == s.nextPid
  {
    hide Within, Distinct, Remove;
  }

  /** Process a has a present page in frame f. */
  ghost predicate Owns(vm: Vm, a: Addr, f: nat) {
    exists v: nat :: Maps(vm, a, v, f)
  }

  lemma RemovedFrames(vm: Vm, a: Addr, f: nat)
    requires VmInv(vm) && a in vm.tables && f < FRAMES
    ensures Remove(vm, a).frames[f] <==> vm.frames[f] && !Owns(vm, a, f)
  {
    hide View, Remove;
    RemoveView(vm, a);
    var r := Remove(vm, a);
    forall b: Addr, v: nat ensures Maps(r, b, v, f) <==> Maps(vm, b, v, f) && b != a {
    }
    if r.frames[f] && f >= 2 {
      assert Mapped(r, f);
      var b: Addr, v: nat :| Maps(r, b, v, f);
      assert Maps(vm, b, v, f);
    }
    if vm.frames[f] && !Owns(vm, a, f) && f >= 2 {
      assert Mapped(vm, f);
      var b: Addr, v: nat :| Maps(vm, b, v, f);
      assert b != a;
      assert Maps(r, b, v, f);
    }
  }

  /** Destroying a process, exactly: its record, its place in the table and its page table are gone, the
      frames it owned and no others are free, and a cursor on it has moved to its successor. */
  lemma DestroyExactly(s: State, a: Addr)
    requires Linked(s) && VmInv(s.vm) && a in s.procs && a != s.idle && s.current != Some(a)
    ensures var r := Destroy(s, a);
            && r.procs == s.procs - {a} && r.order == Erased(s.order, a)
            && r.vm.tables.Keys == s.vm.tables.Keys - {a} && VmInv(r.vm)
            && (forall b :: b in r.vm.tables ==> r.vm.tables[b] == s.vm.tables[b])
            && (forall f: nat :: f < FRAMES ==> (r.vm.frames[f] <==> s.vm.frames[f] && !Owns(s.vm, a, f)))
            && r.cursor == (if s.cursor == Some(a) then Successor(s.order, a) else s.cursor)
  {
    hide Within, Distinct, View, VmInv, Remove, Owns, Erased, Successor;
    RemoveView(s.vm, a);
    forall f: nat | f < FRAMES ensures Remove(s.vm, a).frames[f] <==> s.vm.frames[f] && !Owns(s.vm, a, f) {
      RemovedFrames(s.vm, a, f);
    }
  }

  lemma DestroyKeeps(s: State, a: Addr)
    requires Core(s) && RunsAtMost(s.procs, s.current) && a in s.procs && a != s.idle && s.current != Some(a)
    ensures Core(Destroy(s, a)) && RunsAtMost(Destroy(s, a).procs, s.current)
  {
    hide Within, Distinct, VmInv, Table, Remove, Destroy;
    RemoveView(s.vm, a);
    DestroyRecords(s, a);
    TableRemove(s.procs, s.nextPid, a);
  }

  lemma DestroyCurrentKeeps(s: State)
    requires Core(s) && s.current.Some? && s.current.value != s.idle && RunsAtMost(s.procs, s.current)
    ensures Inv(DestroyCurrent(s))
  {
    hide Within, Distinct, VmInv, Table, Remove, Schedule, Destroy;
    var c, t := s.current.value, s.(current := None);
    RemoveView(s.vm, c);
    DestroyRecords(t, c);
    TableRemove(s.procs, s.nextPid, c);
    assert RunsAtMost(Destroy(t, c).procs, None);
    ScheduleKeeps(Destroy(t, c));
  }

  lemma CreateVm(s: State, image: seq<Word>, isIdle: bool)
    requires Inv(s)
    ensures VmInv(Create(s, image, isIdle).vm)
  {
    hide Within, Distinct, VmInv, View, Table, RunsAtMost;
    var a := s.nextAddr;
    var vm := Vm(s.vm.frames, s.vm.mem, s.vm.tables[a := EmptyTable()]);
    AddTable(s.vm, a);
    LoadPagesView(vm, a, image, 0, Least(PagesNeeded(|image|), PTES));
  }

  lemma CreateKeeps(s: State, image: seq<Word>, isIdle: bool)
    requires Inv(s) && (!isIdle ==> s.nextPid < 0xFFFF)
    ensures Core(Create(s, image, isIdle)) && RunsAtMost(Create(s, image, isIdle).procs, s.current)
  {
    hide Within, Distinct, VmInv, View, Table, LoadPages;
    CreateVm(s, image, isIdle);
    TableAdd(s.procs, s.nextPid, s.nextAddr, NewProc(if isIdle then 0 else s.nextPid + 1, image));
  }

  lemma LoadKeeps(s: State, image: seq<Word>, isIdle: bool)
    requires Inv(s) && (image != [] && !isIdle ==> s.nextPid < 0xFFFF)
    ensures Inv(LoadProgram(s, image, isIdle))
  {
    hide Within, Distinct, VmInv, Table, Create;
    if image != [] {
      CreateKeeps(s, image, isIdle);
      CreateFields(s, image, isIdle);
      SaveKeeps(Create(s, image, isIdle));
      RestoreKeeps(SaveContext(Create(s, image, isIdle)), s.nextAddr);
    }
  }

  lemma CreateFields(s: State, image: seq<Word>, isIdle: bool)
    requires Linked(s) && s.nextAddr !in s.procs
    ensures var r := Create(s, image, isIdle);
            && r.current == s.current && r.idle == s.idle && s.nextAddr in r.procs
               && r.procs[s.nextAddr].status == Ready
            && r.procs.Keys == s.procs.Keys + {s.nextAddr} && r.nextAddr == s.nextAddr + 1
            && forall b :: b in s.procs ==> r.procs[b] == s.procs[b]
  {
  }

  /** A load, exactly, as far as the process table goes: the new process stands at its end, with the next
      number (0 for the idle program), a whole slice and no sleep, and runs; the one that was running is
      Ready; the cursor stays. An empty file does nothing. */
  lemma LoadExactly(s: State, image: seq<Word>, isIdle: bool)
    requires Inv(s)
    ensures image == [] ==> LoadProgram(s, image, isIdle) == s
    ensures image != [] ==>
              var r, a := LoadProgram(s, image, isIdle), s.nextAddr;
              && a !in s.procs && r.order == s.order + [a] && r.cursor == s.cursor && r.procs.Keys == s.procs.Keys + {a}
              && r.nextPid == (if isIdle then s.nextPid else s.nextPid + 1)
              && r.procs[a].id == (if isIdle then 0 else r.nextPid)
              && r.procs[a].quantum == 0 && r.procs[a].sleep == 0 && r.procs[a].status == Running
              && r.current == Some(a) && r.mmu == a && r.procs[s.mmu].status == Ready
              && forall b :: b in s.procs && b != s.mmu ==> r.procs[b] == s.procs[b]
  {
    hide Within, Distinct, VmInv, Table, Create, Linked, RunsAtMost;
    BelowNext(s);
    if image != [] {
      CreateExactly(s, image, isIdle);
    }
  }

  lemma BelowNext(s: State)
    requires Inv(s)
    ensures Linked(s) && s.nextAddr !in s.procs && s.current == Some(s.mmu) && s.mmu in s.procs
    ensures s.procs[s.mmu].status == Running
  {
  }

  lemma CreateExactly(s: State, image: seq<Word>, isIdle: bool)
    requires Linked(s) && s.nextAddr !in s.procs
    ensures var r, a := Create(s, image, isIdle), s.nextAddr;
            && r.order == s.order + [a] && r.cursor == s.cursor && r.procs.Keys == s.procs.Keys + {a}
            && r.nextPid == (if isIdle then s.nextPid else s.nextPid + 1)
            && r.procs[a].id == (if isIdle then 0 else r.nextPid)
            && r.procs[a].quantum == 0 && r.procs[a].sleep == 0 && r.current == s.current
            && forall b :: b in s.procs ==> r.procs[b] == s.procs[b]
  {
    hide Within, Distinct, LoadPages;
  }

  lemma KillKeeps(s: State, pid: nat)
    requires Inv(s)
    ensures Inv(Kill(s, pid))
  {
    hide Within, Distinct, VmInv, Table, Remove, DestroyCurrent;
    if pid != 0 {
      var found := FindPid(s.procs, s.order, pid);
      if found.Some? {
        if s.current == found {
          DestroyCurrentKeeps(s);
        } else {
          DestroyKeeps(s, found.value);
        }
      }
    }
  }

  // ---------- timer ----------

  lemma TimerKeeps(s: State)
    requires Inv(s)
    ensures Inv(Timer(s))
  {
    hide Within, Distinct, VmInv, Table, Preempt;
    TableTick(s.procs, s.nextPid);
    PreemptKeeps(s.(procs := TickAll(s.procs)));
  }

  lemma PreemptKeeps(s: State)
    requires Inv(s)
    ensures Inv(Preempt(s))
  {
    hide Within, Distinct, VmInv, Table, Schedule;
    var c, p := s.current.value, s.procs[s.current.value];
    TableProc(s.procs, s.nextPid, c);
    if p.id == 0 {
      ScheduleKeeps(s);
    } else if p.quantum + 1 >= QUANTUM {
      TableUpdate(s.procs, s.nextPid, c, p.(quantum := 0, status := Ready));
      ScheduleKeeps(s.(procs := s.procs[c := p.(quantum := 0, status := Ready)]));
    } else {
      TableUpdate(s.procs, s.nextPid, c, p.(quantum := p.quantum + 1));
    }
  }

  // ---------- system calls ----------

  lemma MallocKeeps(s: State)
    requires Inv(s)
    ensures Inv(Malloc(s))
  {
    hide Within, Distinct, VmInv, Table;
    TableProc(s.procs, s.nextPid, s.mmu);
    if s.gprs[1] != 0 {
      TableUpdate(s.procs, s.nextPid, s.mmu, Malloc(s).procs[s.mmu]);
    }
  }

  /** A change of one record that keeps its scheduling fields. */
  lemma RecordKeeps(s: State, c: Addr, p: Proc)
    requires Inv(s) && c in s.procs && p.id == s.procs[c].id && p.status == s.procs[c].status
    requires p.sleep == s.procs[c].sleep && p.quantum == s.procs[c].quantum
    ensures Inv(s.(procs := s.procs[c := p]))
  {
    hide Within, Distinct, VmInv, Table;
    TableProc(s.procs, s.nextPid, c);
    TableUpdate(s.procs, s.nextPid, c, p);
  }

  /** A change of the paging state alone. */
  lemma VmKeeps(s: State, vm: Vm, gprs: Regs)
    requires Inv(s) && VmInv(vm) && vm.tables.Keys == s.vm.tables.Keys
    ensures Inv(s.(vm := vm, gprs := gprs))
  {
    hide Within, Distinct, VmInv, Table;
  }

  lemma FreeKeeps(s: State)
    requires Inv(s)
    ensures Inv(Free(s))
  {
    hide Within, Distinct, View, VmInv, Table, RunsAtMost, FreePages, AnyPresent, FindBlock;
    var c, p, v := s.current.value, s.procs[s.current.value], s.gprs[1];
    var i := FindBlock(p.blocks, v);
    var n := if i < |p.blocks| then p.blocks[i].pages else 1;
    FreePagesView(s.vm, c, Page(v), n);
    FreePagesKeys(s.vm, c, Page(v), n);
    if i < |p.blocks| {
      var q := p.(blocks := p.blocks[..i] + p.blocks[i + 1..]);
      RecordKeeps(s, c, q);
      VmKeeps(s.(procs := s.procs[c := q]), FreePages(s.vm, c, Page(v), n), Free(s).gprs);
    } else {
      VmKeeps(s, FreePages(s.vm, c, Page(v), n), Free(s).gprs);
    }
  }

  lemma SleepKeeps(s: State)
    requires Inv(s)
    ensures Inv(Sleep(s))
  {
    hide Within, Distinct, VmInv, Table, Schedule;
    var c, p := s.current.value, s.procs[s.current.value];
    TableProc(s.procs, s.nextPid, c);
    if p.id != 0 {
      if s.gprs[1] > 0 {
        TableUpdate(s.procs, s.nextPid, c, p.(sleep := s.gprs[1], status := Blocked));
        ScheduleKeeps(s.(procs := s.procs[c := p.(sleep := s.gprs[1], status := Blocked)]));
      } else {
        ScheduleKeeps(s);
      }
    }
  }

  lemma PrintKeeps(s: State)
    requires Inv(s)
    ensures Inv(PrintString(s))
  {
    hide Within, Distinct, VmInv, Table, RunsAtMost, Kill, WalkString;
    var walk := WalkString(s.vm.tables[s.mmu], s.vm.mem, s.gprs[1], WALK);
    KillKeeps(s.(out := s.out + walk.text), s.procs[s.current.value].id);
  }

  lemma SystemCallKeeps(s: State, time: Word)
    requires Inv(s) && (s.gprs[0] == 0 ==> s.current != Some(s.idle))
    ensures Inv(SystemCall(s, time))
  {
    hide Within, Distinct, VmInv, Table, RunsAtMost, DestroyCurrent, Schedule, Malloc, Free, Sleep, PrintString;
    match s.gprs[0]
    case 0 => DestroyCurrentKeeps(s);
    case 1 => PrintKeeps(s);
    case 4 => MallocKeeps(s);
    case 5 => FreeKeeps(s);
    case 6 => SleepKeeps(s);
    case _ =>
  }

  // ---------- processor ----------

  lemma ExceptionKeeps(s: State, pageFault: bool, vaddr: Word)
    requires Inv(s)
    ensures Inv(Exception(s, pageFault, vaddr))
  {
    hide Within, Distinct, VmInv, Table, RunsAtMost, DestroyCurrent, DemandPage;
    var c := s.current.value;
    if pageFault && Servable(s, c, vaddr) {
      DemandPageView(s.vm, c, Page(vaddr));
    } else if c != s.idle {
      DestroyCurrentKeeps(s);
    }
  }

  lemma TouchKeeps(s: State, vaddr: Word, kind: AccessKind)
    requires Inv(s)
    ensures Inv(Touch(s, vaddr, kind))
  {
    hide Within, Distinct, VmInv, View, Table, RunsAtMost;
    MarkView(s.vm, s.mmu, vaddr, kind);
  }

  lemma ReadKeeps(s: State, addr: Word, dest: Reg, next: Word, time: Word)
    requires Inv(s)
    ensures Inv(Perform(s, ReadWord(addr, dest), next, time))
  {
    hide Within, Distinct, VmInv, View, Table, RunsAtMost, Exception;
    ExceptionKeeps(s, true, addr);
    ExceptionKeeps(s, false, addr);
    TouchKeeps(s, addr, Read);
  }

  lemma StoreKeeps(s: State, addr: Word, value: Word)
    requires Inv(s) && Translate(s.vm.tables[s.mmu], addr, Write).Granted?
    ensures Inv(s.(vm := StoreAt(s.vm, s.mmu, addr, value)))
  {
    hide Within, Distinct, VmInv, View, Table, RunsAtMost, StoreAt;
    StoreView(s.vm, s.mmu, addr, value);
    StoreKeys(s.vm, s.mmu, addr, value);
  }

  lemma WriteKeeps(s: State, addr: Word, value: Word, next: Word, time: Word)
    requires Inv(s)
    ensures Inv(Perform(s, WriteWord(addr, value), next, time))
  {
    hide Within, Distinct, VmInv, View, Table, RunsAtMost, Exception, StoreAt;
    ExceptionKeeps(s, true, addr);
    ExceptionKeeps(s, false, addr);
    if Translate(s.vm.tables[s.mmu], addr, Write).Granted? {
      TouchKeeps(s, addr, Write);
      StoreKeeps(Touch(s, addr, Write), addr, value);
    }
  }

  lemma PerformKeeps(s: State, e: Effect, next: Word, time: Word)
    requires Inv(s) && (e.Trap? && s.gprs[0] == 0 ==> s.current != Some(s.idle))
    ensures Inv(Perform(s, e, next, time))
  {
    hide Within, Distinct, Inv, Exception, SystemCall, Touch, StoreAt;
    match e
    case ReadWord(addr, dest) => ReadKeeps(s, addr, dest, next, time);
    case WriteWord(addr, value) => WriteKeeps(s, addr, value, next, time);
    case Trap => TrapKeeps(s, next, time);
    case BadInstruction => ExceptionKeeps(s, false, s.pc);
    case Registers(gprs, pc) => SimpleKeeps(s, gprs, pc);
    case Crash => OffKeeps(s);
  }

  lemma TrapKeeps(s: State, next: Word, time: Word)
    requires Inv(s) && (s.gprs[0] == 0 ==> s.current != Some(s.idle))
    ensures Inv(Perform(s, Trap, next, time))
  {
    hide Within, Distinct, VmInv, Table, RunsAtMost, SystemCall;
    SystemCallKeeps(s.(pc := next), time);
  }

  lemma SimpleKeeps(s: State, gprs: Regs, pc: Word)
    requires Inv(s)
    ensures Inv(s.(gprs := gprs, pc := pc))
  {
  }

  lemma OffKeeps(s: State)
    requires Inv(s)
    ensures Inv(s.(on := false))
  {
  }

  lemma StoreKeys(vm: Vm, a: Addr, vaddr: Word, value: Word)
    requires a in vm.tables && Translate(vm.tables[a], vaddr, Write).Granted?
    ensures StoreAt(vm, a, vaddr, value).tables == vm.tables
  {
  }

  lemma CycleKeeps(s: State, time: Word)
    requires Inv(s) && (Fetched(s) == Some(Instr.Syscall) && s.gprs[0] == 0 ==> s.current != Some(s.idle))
    ensures Inv(Cycle(s, time))
  {
    hide Within, Distinct, View, VmInv, Table, RunsAtMost, Exception, Touch, Perform, Decode;
    ExceptionKeeps(s, true, s.pc);
    ExceptionKeeps(s, false, s.pc);
    TouchKeeps(s, s.pc, Fetch);
    var access := Translate(s.vm.tables[s.mmu], s.pc, Fetch);
    if access.Granted? && access.paddr < MEMORY {
      TouchFields(s, s.pc, Fetch);
      PerformKeeps(Touch(s, s.pc, Fetch), Execute(Decode(s.vm.mem[access.paddr]), s.gprs, Wrap(s.pc + 1)),
        Wrap(s.pc + 1), time);
    }
  }

  lemma TouchFields(s: State, vaddr: Word, kind: AccessKind)
    requires Linked(s) && s.mmu in s.procs
    ensures var r := Touch(s, vaddr, kind);
            r.gprs == s.gprs && r.current == s.current && r.idle == s.idle && r.mmu == s.mmu && r.pc == s.pc
  {
  }

  // ---------- events and runs ----------

  /** Every event keeps the invariant. */
  lemma StepKeeps(s: State, e: Event)
    requires Inv(s) && Enabled(s, e)
    ensures Inv(Step(s, e))
  {
    hide Within, Distinct, VmInv, Table, RunsAtMost, Timer, Cycle, LoadProgram, Kill;
    match e
    case TimerInterrupt => TimerKeeps(s);
    case CpuCycle(time) => CycleKeeps(s, time);
    case LoadCommand(image, isIdle) => LoadKeeps(s, image, isIdle);
    case KillCommand(pid) => KillKeeps(s, pid);
    case QuitCommand =>
    case OtherInput =>
  }

  /** So does every run. */
  lemma {:induction false} RunKeeps(s: State, es: seq<Event>)
    requires Inv(s) && Possible(s, es)
    ensures Inv(Run(s, es))
    decreases |es|
  {
    hide Within, Distinct, Inv, Step;
    if es != [] {
      StepKeeps(s, es[0]);
      RunKeeps(Step(s, es[0]), es[1..]);
    }
  }

  // ---------- boot ----------

  function BootFrames(): (f: Frames)
    ensures forall i :: 0 <= i < FRAMES ==> f[i] == (i < 2)
  {
    seq(FRAMES, i => i < 2)
  }

  function BootMemory(): (m: Memory)
    ensures forall i :: 0 <= i < MEMORY ==> m[i] == 0
  {
    seq(MEMORY, i => 0)
  }

  /** The idle program loaded into an empty machine and running. */
  function Boot(image: seq<Word>): State {
    State(LoadPages(Vm(BootFrames(), BootMemory(), map[0 := EmptyTable()]), 0, image, 0,
      Least(PagesNeeded(|image|), PTES)),
          map[0 := NewProc(0, image).(status := Running)], [0], Some(0), 0, None,
          0, [0, 0, 0, 0, 0, 0, 0, 0], 1, 0, 1, true, [])
  }

  /** Boot, exactly: one process, the idle one, with number 0, running from address 1 with cleared
      registers; no numbers given out; nothing printed. */
  lemma BootExactly(image: seq<Word>)
    ensures var s := Boot(image);
            && s.procs.Keys == {0} && s.order == [0] && s.current == Some(0) && s.mmu == 0 && s.idle == 0
            && s.procs[0].id == 0 && s.procs[0].status == Running && s.procs[0].quantum == 0 && s.procs[0].blocks == []
            && s.gprs == [0, 0, 0, 0, 0, 0, 0, 0] && s.pc == 1
            && s.cursor == None && s.nextPid == 0 && s.on && s.out == []
  {
    hide LoadPages, Wrap;
  }

  lemma BootInv(image: seq<Word>)
    ensures Inv(Boot(image))
  {
    hide Within, View;
    var empty := Vm(BootFrames(), BootMemory(), map[0 := EmptyTable()]);
    assert VmInv(empty);
    EmptyView(empty);
    var pages := Least(PagesNeeded(|image|), PTES);
    LoadPagesView(empty, 0, image, 0, pages);
    LoadPagesKeys(empty, 0, image, 0, pages);
  }

  lemma EmptyView(vm: Vm)
    requires 0 in vm.tables && vm.tables[0] == EmptyTable()
    ensures View(vm, 0) == map[]
  {
  }
}
