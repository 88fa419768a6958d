/** The processor changes hands only by the round robin: whatever ends, blocks or preempts the running
    process, the next one is the first eligible process behind the cursor. */
module Handover {
  import opened Options
  import opened Isa
  import opened Paging
  import opened AddressSpaces
  import opened Kernel
  import opened KernelInvariant
  import opened Scheduling
  import opened Quantum

  /** t is s at the moment of a dispatch: the table and the cursor are as they were, or the process that
      was running has been taken out of both; all other records are as they were, or ticked. */
  ghost predicate Leads(s: State, t: State) {
    && t.idle == s.idle
    && (forall a :: a in t.procs && a != s.mmu ==>
          a in s.procs && (t.procs[a] == s.procs[a] || t.procs[a] == Tick(s.procs[a])))
    && ((t.procs.Keys == s.procs.Keys && t.order == s.order && t.cursor == s.cursor)
        || (s.mmu in s.order && t.procs.Keys == s.procs.Keys - {s.mmu} && t.order == Erased(s.order, s.mmu)
            && t.cursor == if s.cursor == Some(s.mmu) then Successor(s.order, s.mmu) else s.cursor))
  }

  /** From s to r the scheduler has made a dispatch, as `DispatchExactly` describes it. */
  ghost predicate ByRound(s: State, r: State) {
    exists t :: Linked(t) && Leads(s, t) && r == Dispatch(t)
  }

  ghost predicate Kept(s: State, r: State) {
    r.current == s.current
  }

  /** The same processes, table and cursor. */
  ghost predicate SameRound(s: State, x: State) {
    && x.idle == s.idle && x.mmu == s.mmu && x.current == Some(s.mmu) && x.procs.Keys == s.procs.Keys
    && x.order == s.order && x.cursor == s.cursor
    && forall a :: a in s.procs && a != s.mmu ==> x.procs[a] == s.procs[a] || x.procs[a] == Tick(s.procs[a])
  }

  lemma ScheduleRound(s: State, x: State)
    requires Linked(x) && SameRound(s, x)
    ensures ByRound(s, Schedule(x))
  {
    hide Within, Distinct, Dispatch, Tick, Erased, Successor;
    assert Leads(s, SaveContext(x));
  }

  lemma DestroyRound(s: State)
    requires Linked(s) && s.current == Some(s.mmu) && s.mmu != s.idle
    ensures ByRound(s, DestroyCurrent(s))
  {
    hide Within, Distinct, Dispatch, Tick, Erased, Successor, Remove;
    var t := Destroy(s.(current := None), s.mmu);
    assert SaveContext(t) == t;
    assert Leads(s, t);
  }

  lemma KillRound(s: State, pid: nat)
    requires Inv(s)
    ensures Kept(s, Kill(s, pid)) || ByRound(s, Kill(s, pid))
  {
    hide Within, Distinct, VmInv, Table, RunsAtMost, DestroyCurrent, Destroy, ByRound;
    if pid != 0 {
      var found := FindPid(s.procs, s.order, pid);
      if found.Some? {
        if s.current == found {
          DestroyRound(s);
        } else {
          DestroyRecords(s, found.value);
        }
      }
    }
  }

  lemma TimerRound(s: State)
    requires Inv(s)
    ensures Kept(s, Timer(s)) || ByRound(s, Timer(s))
  {
    hide Within, Distinct, VmInv, Table, RunsAtMost, Schedule, Timer, ByRound, Tick;
    TimerTick(s);
    if s.procs[s.mmu].id == 0 {
      ScheduleRound(s, s.(procs := TickAll(s.procs)));
    } else if s.procs[s.mmu].quantum == 4 {
      ScheduleRound(s, SliceOver(s));
    }
  }

  /** The sleep call of a user process always makes a dispatch, even with no ticks to sleep. */
  lemma SleepRound(s: State)
    requires Inv(s) && s.procs[s.mmu].id != 0
    ensures ByRound(s, Sleep(s))
  {
    hide Within, Distinct, VmInv, Table, RunsAtMost, Schedule, ByRound, Tick;
    var c, p := s.mmu, s.procs[s.mmu];
    if s.gprs[1] > 0 {
      ScheduleRound(s, s.(procs := s.procs[c := p.(sleep := s.gprs[1], status := Blocked)]));
    } else {
      ScheduleRound(s, s);
    }
  }

  lemma PrintRound(s: State)
    requires Inv(s)
    ensures Kept(s, PrintString(s)) || ByRound(s, PrintString(s))
  {
    hide Within, Distinct, VmInv, Table, Kill, WalkString, RunsAtMost, Dispatch, Leads;
    var t := s.(out := s.out + WalkString(s.vm.tables[s.mmu], s.vm.mem, s.gprs[1], WALK).text);
    KillRound(t, s.procs[s.mmu].id);
    SameLead(s, t);
  }

  /** Only scheduling matters to a handover. */
  lemma SameLead(s: State, t: State)
    requires t.procs == s.procs && t.order == s.order && t.cursor == s.cursor && t.mmu == s.mmu && t.idle == s.idle
    ensures forall x: State :: Leads(t, x) <==> Leads(s, x)
    ensures forall r: State :: ByRound(t, r) <==> ByRound(s, r)
  {
    hide Tick, Erased, Successor, Dispatch, Linked;
    forall x: State ensures Leads(t, x) <==> Leads(s, x) {
    }
  }

  lemma SystemCallRound(s: State, time: Word)
    requires Inv(s) && (s.gprs[0] == 0 ==> s.current != Some(s.idle))
    ensures var r := SystemCall(s, time);
            && (Kept(s, r) || ByRound(s, r))
            && (s.gprs[0] == 6 && s.procs[s.mmu].id != 0 ==> ByRound(s, r))
  {
    hide Within, Distinct, VmInv, Table, RunsAtMost, DestroyCurrent, Schedule, Malloc, Free, Sleep, PrintString,
      Decimal, ByRound, Quiet;
    match s.gprs[0]
    case 0 => DestroyRound(s);
    case 1 => PrintRound(s);
    case 4 => MallocCurrent(s);
    case 5 => FreeCurrent(s);
    case 6 =>
      if s.procs[s.mmu].id != 0 {
        SleepRound(s);
      } else {
        IdleSleep(s);
      }
    case _ =>
  }

  lemma MallocCurrent(s: State)
    requires Linked(s)
    ensures Kept(s, Malloc(s))
  {
    hide Within, Distinct;
  }

  lemma FreeCurrent(s: State)
    requires Linked(s)
    ensures Kept(s, Free(s))
  {
    hide Within, Distinct, FreePages, AnyPresent, FindBlock;
  }

  lemma IdleSleep(s: State)
    requires Linked(s) && s.current == Some(s.mmu) && s.procs[s.mmu].id == 0
    ensures Sleep(s) == s
  {
    hide Within, Distinct, Schedule;
  }

  lemma ExceptionRound(s: State, pageFault: bool, vaddr: Word)
    requires Inv(s)
    ensures var r := Exception(s, pageFault, vaddr); Kept(s, r) || ByRound(s, r)
  {
    hide Within, Distinct, VmInv, Table, RunsAtMost, DestroyCurrent, DemandPage, ByRound;
    if s.mmu != s.idle {
      DestroyRound(s);
    }
  }

  lemma PerformRound(s: State, e: Effect, next: Word, time: Word)
    requires Inv(s) && (e.Trap? && s.gprs[0] == 0 ==> s.current != Some(s.idle))
    ensures var r := Perform(s, e, next, time);
            && (Kept(s, r) || ByRound(s, r))
            && (e.Trap? && s.gprs[0] == 6 && s.procs[s.mmu].id != 0 ==> ByRound(s, r))
  {
    hide Within, Distinct, VmInv, Table, RunsAtMost, Exception, SystemCall, Translate, StoreAt, Touch, ByRound, Quiet,
      Leads;
    match e
    case ReadWord(addr, dest) => AccessRound(s, e, next, time);
    case WriteWord(addr, value) => AccessRound(s, e, next, time);
    case Trap =>
      SystemCallRound(s.(pc := next), time);
      SameLead(s, s.(pc := next));
    case BadInstruction => ExceptionRound(s, false, s.pc);
    case _ =>
  }

  lemma AccessRound(s: State, e: Effect, next: Word, time: Word)
    requires Inv(s) && (e.ReadWord? || e.WriteWord?)
    ensures var r := Perform(s, e, next, time); Kept(s, r) || ByRound(s, r)
  {
    hide Within, Distinct, VmInv, Table, RunsAtMost, Exception, Perform, ByRound;
    AccessCases(s, e, next, time);
    ExceptionRound(s, true, e.addr);
    ExceptionRound(s, false, e.addr);
  }

  lemma CycleRound(s: State, time: Word)
    requires Inv(s) && Enabled(s, CpuCycle(time))
    ensures Kept(s, Cycle(s, time)) || ByRound(s, Cycle(s, time))
    ensures AboutToSleep(s) ==> ByRound(s, Cycle(s, time))
  {
    hide Within, Distinct, VmInv, Table, RunsAtMost, Exception, Touch, Perform, Decode, Translate, ByRound, Leads;
    ExceptionRound(s, true, s.pc);
    ExceptionRound(s, false, s.pc);
    var access := Translate(s.vm.tables[s.mmu], s.pc, Fetch);
    if access.Granted? && access.paddr < MEMORY {
      var t := Touch(s, s.pc, Fetch);
      TouchFields(s, s.pc, Fetch);
      TouchQuiet(s, s.pc, Fetch);
      TouchKeeps(s, s.pc, Fetch);
      SameLead(s, t);
      PerformRound(t, Execute(Decode(s.vm.mem[access.paddr]), s.gprs, Wrap(s.pc + 1)), Wrap(s.pc + 1), time);
    }
  }

  /** Every event but a load: the running process goes on, or the scheduler has made a dispatch. So
      after its end, its sleep or its fifth tick the next in the round runs; and a sleep call always makes
      one, even if it returns to its caller. */
  lemma StepHandsOver(s: State, e: Event)
    requires Inv(s) && Enabled(s, e) && !e.LoadCommand?
    ensures Step(s, e).current == s.current || ByRound(s, Step(s, e))
    ensures e.CpuCycle? && AboutToSleep(s) ==> ByRound(s, Step(s, e))
  {
    hide Within, Distinct, VmInv, Table, RunsAtMost, Timer, Cycle, Kill, ByRound, AboutToSleep;
    match e
    case TimerInterrupt => TimerRound(s);
    case CpuCycle(time) => CycleRound(s, time);
    case KillCommand(pid) => KillRound(s, pid);
    case _ =>
  }
}
