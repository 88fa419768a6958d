/** Which operations can switch the machine off or write to the terminal, and what is left when the
    machine goes off. */
module Power {
  import opened Options
  import opened Isa
  import opened Paging
  import opened AddressSpaces
  import opened Kernel
  import opened KernelInvariant

  /** The terminal and the power switch are as before. */
  ghost predicate Steady(s: State, r: State) {
    r.out == s.out && r.on == s.on
  }

  lemma ScheduleSteady(s: State)
    requires Linked(s)
    ensures Steady(s, Schedule(s)) && Schedule(s).procs.Keys == s.procs.Keys
  {
    hide Within, Distinct, Search;
  }

  lemma DestroyCurrentSteady(s: State)
    requires Linked(s) && s.current.Some? && s.current.value != s.idle
    ensures Steady(s, DestroyCurrent(s))
  {
    hide Within, Distinct, Search, Remove, Erased, Successor;
  }

  lemma KillSteady(s: State, pid: nat)
    requires Linked(s) && s.procs[s.idle].id == 0
    ensures Steady(s, Kill(s, pid))
  {
    hide Within, Distinct, DestroyCurrent, Remove, Erased, Successor;
    if pid != 0 {
      var found := FindPid(s.procs, s.order, pid);
      if found.Some? && s.current == found {
        DestroyCurrentSteady(s);
      }
    }
  }

  lemma RecordLinked(s: State, c: Addr, p: Proc)
    requires Linked(s) && c in s.procs
    ensures Linked(s.(procs := s.procs[c := p])) && s.procs[c := p].Keys == s.procs.Keys
  {
  }

  lemma CurrentRecord(s: State)
    requires Linked(s)
    ensures s.current.Some? ==> s.current.value in s.procs
  {
  }

  lemma PreemptSteady(s: State)
    requires Linked(s)
    ensures Steady(s, Preempt(s))
  {
    hide Within, Schedule, Linked;
    CurrentRecord(s);
    if s.current.Some? && s.procs[s.current.value].id != 0 && s.procs[s.current.value].status == Running {
      var c, p := s.current.value, s.procs[s.current.value];
      RecordLinked(s, c, p.(quantum := 0, status := Ready));
      if p.quantum + 1 >= QUANTUM {
        ScheduleSteady(s.(procs := s.procs[c := p.(quantum := 0, status := Ready)]));
      }
    } else {
      ScheduleSteady(s);
    }
  }

  lemma TimerSteady(s: State)
    requires Linked(s)
    ensures Steady(s, Timer(s))
  {
    hide Within, Distinct, Preempt;
    PreemptSteady(s.(procs := TickAll(s.procs)));
  }

  lemma LoadSteady(s: State, image: seq<Word>, isIdle: bool)
    requires Linked(s) && s.nextAddr !in s.procs
    ensures Steady(s, LoadProgram(s, image, isIdle))
  {
    hide Within, Distinct, LoadPages;
  }

  lemma MallocSteady(s: State)
    requires Linked(s)
    ensures Steady(s, Malloc(s)) && Malloc(s).procs.Keys == s.procs.Keys
  {
    hide Within, Distinct;
  }

  lemma FreeSteady(s: State)
    requires Linked(s)
    ensures Steady(s, Free(s)) && Free(s).procs.Keys == s.procs.Keys
  {
    hide Within, Distinct, FreePages, AnyPresent, FindBlock;
  }

  lemma SleepSteady(s: State)
    requires Linked(s)
    ensures Steady(s, Sleep(s)) && Sleep(s).procs.Keys == s.procs.Keys
  {
    hide Within, Schedule, Linked;
    CurrentRecord(s);
    if s.current.Some? {
      var c, p := s.current.value, s.procs[s.current.value];
      RecordLinked(s, c, p.(sleep := s.gprs[1], status := Blocked));
      if p.id != 0 {
        if s.gprs[1] > 0 {
          ScheduleSteady(s.(procs := s.procs[c := p.(sleep := s.gprs[1], status := Blocked)]));
        } else {
          ScheduleSteady(s);
        }
      }
    }
  }

  /** No system call switches the machine off. */
  lemma SystemCallOn(s: State, time: Word)
    requires Linked(s) && s.mmu in s.procs && s.procs[s.idle].id == 0 && (s.gprs[0] == 0 ==> s.current != Some(s.idle))
    ensures SystemCall(s, time).on == s.on
  {
    hide Within, Distinct, DestroyCurrent, Schedule, Malloc, Free, Sleep, Kill, WalkString, Decimal;
    match s.gprs[0]
    case 0 =>
      if s.current.Some? {
        DestroyCurrentSteady(s);
      } else {
        ScheduleSteady(s);
      }
    case 1 =>
      var s1 := s.(out := s.out + WalkString(s.vm.tables[s.mmu], s.vm.mem, s.gprs[1], WALK).text);
      if s.current.Some? {
        KillSteady(s1, s.procs[s.current.value].id);
      }
    case 4 => MallocSteady(s);
    case 5 => FreeSteady(s);
    case 6 => SleepSteady(s);
    case _ =>
  }

  /** An exception that switches the machine off changes nothing else. */
  lemma ExceptionOff(s: State, pageFault: bool, vaddr: Word)
    requires Linked(s) && s.on && !Exception(s, pageFault, vaddr).on
    ensures Exception(s, pageFault, vaddr) == s.(on := false)
  {
    hide Within, Distinct, DestroyCurrent, DemandPage;
    if s.current.Some? && s.current.value != s.idle {
      DestroyCurrentSteady(s);
    }
  }

  lemma PerformOff(s: State, e: Effect, next: Word, time: Word)
    requires Linked(s) && s.mmu in s.procs && s.procs[s.idle].id == 0 && s.on
    requires e.Trap? && s.gprs[0] == 0 ==> s.current != Some(s.idle)
    requires !Perform(s, e, next, time).on
    ensures Perform(s, e, next, time) == s.(on := false)
  {
    hide Within, Distinct, Exception, Touch, Translate, SystemCall, StoreAt;
    match e
    case ReadWord(addr, dest) => AccessOff(s, e, next, time);
    case WriteWord(addr, value) => AccessOff(s, e, next, time);
    case Trap => SystemCallOn(s.(pc := next), time);
    case BadInstruction => ExceptionOff(s, false, s.pc);
    case _ =>
  }

  lemma TouchOn(s: State, vaddr: Word, kind: AccessKind)
    requires Linked(s) && s.mmu in s.procs
    ensures Steady(s, Touch(s, vaddr, kind))
  {
    hide Within, Distinct;
  }

  lemma AccessOff(s: State, e: Effect, next: Word, time: Word)
    requires Linked(s) && s.mmu in s.procs && s.procs[s.idle].id == 0 && s.on
    requires (e.ReadWord? || e.WriteWord?) && !Perform(s, e, next, time).on
    ensures Perform(s, e, next, time) == s.(on := false)
  {
    hide Within, Distinct, Exception, Touch, Translate, StoreAt;
    var kind := if e.ReadWord? then Read else Write;
    TouchOn(s, e.addr, kind);
    match Translate(s.vm.tables[s.mmu], e.addr, kind)
    case PageFault => ExceptionOff(s, true, e.addr);
    case ProtectionFault => ExceptionOff(s, false, e.addr);
    case Granted(_) =>
  }

  /** A cycle that switches the machine off changes nothing else but usage bits. */
  lemma CycleOff(s: State, time: Word)
    requires Inv(s) && Enabled(s, CpuCycle(time)) && !Cycle(s, time).on
    ensures Cycle(s, time) == s.(on := false) || Cycle(s, time) == Touch(s, s.pc, Fetch).(on := false)
  {
    hide Within, Distinct, VmInv, Table, RunsAtMost, Exception, Touch, Perform, Decode, Translate;
    TouchOn(s, s.pc, Fetch);
    TouchFields(s, s.pc, Fetch);
    TouchKeeps(s, s.pc, Fetch);
    match Translate(s.vm.tables[s.mmu], s.pc, Fetch)
    case PageFault => ExceptionOff(s, true, s.pc);
    case ProtectionFault => ExceptionOff(s, false, s.pc);
    case Granted(paddr) =>
      if paddr < MEMORY {
        PerformOff(Touch(s, s.pc, Fetch), Execute(Decode(s.vm.mem[paddr]), s.gprs, Wrap(s.pc + 1)), Wrap(s.pc + 1),
          time);
      }
  }
}
