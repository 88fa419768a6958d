/** The time slice in numbers: a user process keeps the processor for five timer interrupts, and only
    timer interrupts count. */
module Quantum {
  import opened Options
  import opened Isa
  import opened Paging
  import opened AddressSpaces
  import opened Kernel
  import opened KernelInvariant
  import opened Scheduling

  /** Nobody's slice or number has changed. */
  ghost predicate SlicesKept(s: State, r: State) {
    forall a :: a in s.procs && a in r.procs ==>
      r.procs[a].quantum == s.procs[a].quantum && r.procs[a].id == s.procs[a].id
  }

  lemma QuietSlices(s: State, r: State)
    requires Quiet(s, r) || r.procs == s.procs
    ensures SlicesKept(s, r)
  {
  }

  lemma ScheduleSlices(s: State)
    requires Linked(s)
    ensures SlicesKept(s, Schedule(s)) && Schedule(s).procs.Keys == s.procs.Keys
  {
    hide Within, Distinct, Dispatch, SaveContext;
    SaveSlices(s);
    DispatchRecords(SaveContext(s));
  }

  lemma SaveSlices(s: State)
    requires Linked(s)
    ensures SlicesKept(s, SaveContext(s))
  {
    hide Within, Distinct;
  }

  lemma DestroySlices(s: State, a: Addr)
    requires Linked(s) && a in s.procs && a != s.idle && s.current != Some(a)
    ensures SlicesKept(s, Destroy(s, a)) && Destroy(s, a).procs.Keys <= s.procs.Keys
  {
    hide Within, Distinct, Remove, Erased, Successor;
  }

  lemma DestroyCurrentSlices(s: State)
    requires Linked(s) && s.current.Some? && s.current.value != s.idle
    ensures SlicesKept(s, DestroyCurrent(s))
  {
    hide Within, Distinct, Destroy, Schedule;
    var t := s.(current := None);
    DestroySlices(t, s.current.value);
    ScheduleSlices(Destroy(t, s.current.value));
  }

  lemma KillSlices(s: State, pid: nat)
    requires Linked(s) && s.procs[s.idle].id == 0
    ensures SlicesKept(s, Kill(s, pid))
  {
    hide Within, Distinct, DestroyCurrent, Destroy;
    if pid != 0 {
      var found := FindPid(s.procs, s.order, pid);
      if found.Some? {
        if s.current == found {
          DestroyCurrentSlices(s);
        } else {
          DestroySlices(s, found.value);
        }
      }
    }
  }

  lemma LoadSlices(s: State, image: seq<Word>, isIdle: bool)
    requires Linked(s) && s.nextAddr !in s.procs
    ensures SlicesKept(s, LoadProgram(s, image, isIdle))
    ensures image != [] ==> var r := LoadProgram(s, image, isIdle);
                            s.nextAddr in r.procs && r.procs[s.nextAddr].quantum == 0
  {
    hide Within, Distinct, LoadPages;
  }

  lemma SleepSlices(s: State)
    requires Linked(s)
    ensures SlicesKept(s, Sleep(s))
  {
    hide Within, Distinct, Schedule;
    if s.current.Some? && s.procs[s.current.value].id != 0 {
      var c, p := s.current.value, s.procs[s.current.value];
      ScheduleSlices(s);
      ScheduleSlices(s.(procs := s.procs[c := p.(sleep := s.gprs[1], status := Blocked)]));
    }
  }

  lemma SystemCallSlices(s: State, time: Word)
    requires Linked(s) && s.mmu in s.procs && s.procs[s.idle].id == 0 && (s.gprs[0] == 0 ==> s.current != Some(s.idle))
    ensures SlicesKept(s, SystemCall(s, time))
  {
    hide Within, Distinct, DestroyCurrent, Schedule, Sleep, Kill, WalkString, Decimal, Malloc, Free, SlicesKept, Quiet;
    match s.gprs[0]
    case 0 =>
      if s.current.Some? {
        DestroyCurrentSlices(s);
      } else {
        ScheduleSlices(s);
      }
    case 1 => PrintSlices(s);
    case 4 =>
      MallocQuiet(s);
      QuietSlices(s, Malloc(s));
    case 5 =>
      FreeQuiet(s);
      QuietSlices(s, Free(s));
    case 6 => SleepSlices(s);
    case _ => QuietSlices(s, SystemCall(s, time));
  }

  lemma PrintSlices(s: State)
    requires Linked(s) && s.mmu in s.procs && s.procs[s.idle].id == 0
    ensures SlicesKept(s, PrintString(s))
  {
    hide Within, Distinct, Kill, WalkString;
    if s.current.Some? {
      KillSlices(s.(out := s.out + WalkString(s.vm.tables[s.mmu], s.vm.mem, s.gprs[1], WALK).text),
        s.procs[s.current.value].id);
    }
  }

  lemma ExceptionSlices(s: State, pageFault: bool, vaddr: Word)
    requires Linked(s)
    ensures SlicesKept(s, Exception(s, pageFault, vaddr))
  {
    hide Within, Distinct, DestroyCurrent, DemandPage;
    if s.current.Some? && s.current.value != s.idle {
      DestroyCurrentSlices(s);
    }
  }

  lemma PerformSlices(s: State, e: Effect, next: Word, time: Word)
    requires Inv(s) && (e.Trap? && s.gprs[0] == 0 ==> s.current != Some(s.idle))
    ensures SlicesKept(s, Perform(s, e, next, time))
  {
    hide Within, Distinct, VmInv, Table, RunsAtMost, Exception, SystemCall, Translate, StoreAt, Touch, SlicesKept,
      Quiet;
    match e
    case ReadWord(addr, dest) => AccessSlices(s, e, next, time);
    case WriteWord(addr, value) => AccessSlices(s, e, next, time);
    case Trap =>
      SystemCallSlices(s.(pc := next), time);
      QuietSlices(s, s.(pc := next));
      SlicesTrans(s, s.(pc := next), SystemCall(s.(pc := next), time));
    case BadInstruction => ExceptionSlices(s, false, s.pc);
    case _ => QuietSlices(s, Perform(s, e, next, time));
  }

  lemma SlicesTrans(s: State, t: State, r: State)
    requires SlicesKept(s, t) && SlicesKept(t, r) && t.procs.Keys == s.procs.Keys
    ensures SlicesKept(s, r)
  {
  }

  lemma AccessSlices(s: State, e: Effect, next: Word, time: Word)
    requires Inv(s) && (e.ReadWord? || e.WriteWord?)
    ensures SlicesKept(s, Perform(s, e, next, time))
  {
    hide Within, Distinct, VmInv, Table, RunsAtMost, Exception, Perform, SlicesKept, Quiet;
    AccessCases(s, e, next, time);
    ExceptionSlices(s, true, e.addr);
    ExceptionSlices(s, false, e.addr);
    if Quiet(s, Perform(s, e, next, time)) {
      QuietSlices(s, Perform(s, e, next, time));
    }
  }

  lemma CycleSlices(s: State, time: Word)
    requires Inv(s) && Enabled(s, CpuCycle(time))
    ensures SlicesKept(s, Cycle(s, time))
  {
    hide Within, Distinct, VmInv, Table, RunsAtMost, Exception, Touch, Perform, Decode, Translate;
    ExceptionSlices(s, true, s.pc);
    ExceptionSlices(s, false, s.pc);
    var access := Translate(s.vm.tables[s.mmu], s.pc, Fetch);
    if access.Granted? && access.paddr < MEMORY {
      var t := Touch(s, s.pc, Fetch);
      TouchFields(s, s.pc, Fetch);
      TouchQuiet(s, s.pc, Fetch);
      TouchKeeps(s, s.pc, Fetch);
      PerformSlices(t, Execute(Decode(s.vm.mem[access.paddr]), s.gprs, Wrap(s.pc + 1)), Wrap(s.pc + 1), time);
    }
  }

  /** The state in which the fifth timer interrupt of a slice calls the scheduler: sleepers are ticked,
      and the process that was running is Ready with a new slice. */
  ghost function SliceOver(s: State): State
    requires s.mmu in s.procs
  {
    s.(procs := TickAll(s.procs)[s.mmu := s.procs[s.mmu].(quantum := 0, status := Ready)])
  }

  /** A timer interrupt, exactly. A user process in the first four ticks of its slice goes on with one
      tick more; with the fifth it is made Ready, its slice starts anew, and the next process is
      dispatched. The idle process is rescheduled at every interrupt. */
  lemma TimerTick(s: State)
    requires Inv(s)
    ensures var p, r := s.procs[s.mmu], Timer(s);
            && p.quantum < 5
            && (p.id != 0 && p.quantum < 4 ==>
                  && r.current == Some(s.mmu) && r.mmu == s.mmu && r.gprs == s.gprs && r.pc == s.pc
                  && r.procs == TickAll(s.procs)[s.mmu := p.(quantum := p.quantum + 1)] && p.status == Running)
            && (p.id != 0 && p.quantum == 4 ==> Linked(SliceOver(s)) && r == Schedule(SliceOver(s)))
            && (p.id == 0 ==> Linked(s.(procs := TickAll(s.procs))) && r == Schedule(s.(procs := TickAll(s.procs))))
  {
    hide Within, Distinct, VmInv, Schedule, Table;
    TableProc(s.procs, s.nextPid, s.mmu);
  }

  lemma TimerSlices(s: State, a: Addr)
    requires Inv(s) && a in s.procs
    ensures a in Timer(s).procs && Timer(s).procs[a].id == s.procs[a].id
    ensures Timer(s).procs[a].quantum ==
            if a == s.mmu && s.procs[a].id != 0 then (s.procs[a].quantum + 1) % 5 else s.procs[a].quantum
  {
    hide Within, Distinct, Schedule, Timer, VmInv, Table, RunsAtMost, Tick, TickAll, SliceOver, Linked;
    TimerTick(s);
    OverRecords(s);
    TicksKeepSlices(s.procs);
    if s.procs[s.mmu].id == 0 {
      ScheduleSlices(s.(procs := TickAll(s.procs)));
    } else if s.procs[s.mmu].quantum == 4 {
      ScheduleSlices(SliceOver(s));
    }
  }

  lemma OverRecords(s: State)
    requires s.mmu in s.procs
    ensures var r := SliceOver(s);
            && r.procs.Keys == s.procs.Keys && r.procs[s.mmu].quantum == 0 && r.procs[s.mmu].id == s.procs[s.mmu].id
            && forall a :: a in s.procs && a != s.mmu ==> r.procs[a] == TickAll(s.procs)[a]
  {
  }

  lemma TicksKeepSlices(procs: map<Addr, Proc>)
    ensures forall a :: a in procs ==>
              TickAll(procs)[a].quantum == procs[a].quantum && TickAll(procs)[a].id == procs[a].id
  {
  }

  /** Every event: the slice of a process grows only with the timer interrupts at which it is running,
      and starts anew at the fifth. */
  lemma StepQuantum(s: State, e: Event, a: Addr)
    requires Inv(s) && Enabled(s, e) && a in s.procs && a in Step(s, e).procs
    ensures Step(s, e).procs[a].id == s.procs[a].id
    ensures Step(s, e).procs[a].quantum ==
            if e.TimerInterrupt? && a == s.mmu && s.procs[a].id != 0 then (s.procs[a].quantum + 1) % 5
            else s.procs[a].quantum
  {
    hide Within, Distinct, VmInv, Table, RunsAtMost, Timer, Cycle, Kill, LoadProgram;
    match e
    case TimerInterrupt => TimerSlices(s, a);
    case CpuCycle(time) => CycleSlices(s, time);
    case LoadCommand(image, isIdle) => LoadSlices(s, image, isIdle);
    case KillCommand(pid) => KillSlices(s, pid);
    case _ =>
  }

  // ---------- over runs ----------

  /** The timer interrupts of a run at which process a is running. */
  ghost function OwnTicks(s: State, es: seq<Event>, a: Addr): nat
    requires Possible(s, es)
    decreases |es|
  {
    if es == [] then 0
    else (if es[0].TimerInterrupt? && a == s.mmu then 1 else 0) + OwnTicks(Step(s, es[0]), es[1..], a)
  }

  /** Over any run the slice of a user process is the number of timer interrupts at which it was
      running, modulo five. */
  lemma {:induction false} RunQuantum(s: State, es: seq<Event>, a: Addr)
    requires Inv(s) && Possible(s, es) && Survives(s, es, a) && s.procs[a].id != 0
    ensures a in Run(s, es).procs && Run(s, es).procs[a].quantum == (s.procs[a].quantum + OwnTicks(s, es, a)) % 5
    decreases |es|
  {
    hide Within, Distinct, Inv, Step, Enabled;
    InvIsLinked(s);
    SliceInRange(s, a);
    if es != [] {
      var t := Step(s, es[0]);
      EnabledFirst(s, es);
      StepKeeps(s, es[0]);
      StepQuantum(s, es[0], a);
      RunQuantum(t, es[1..], a);
      OneMore(s.procs[a].quantum, OwnTicks(t, es[1..], a));
    }
  }

  lemma OneMore(q: nat, n: nat)
    ensures ((q + 1) % 5 + n) % 5 == (q + (1 + n)) % 5
  {
  }

  lemma SliceInRange(s: State, a: Addr)
    requires Inv(s) && a in s.procs
    ensures s.procs[a].quantum < 5
  {
    hide Within, Distinct, VmInv, Table, RunsAtMost;
    TableProc(s.procs, s.nextPid, a);
  }

  /** Timer interrupts alone: through the first four ticks of its slice a user process keeps the
      processor, and exactly with the fifth the next process is dispatched. */
  lemma {:induction false} FiveTicks(s: State, es: seq<Event>)
    requires Inv(s) && Possible(s, es) && s.procs[s.mmu].id != 0
    requires forall i :: 0 <= i < |es| ==> es[i].TimerInterrupt?
    requires |es| <= 5 - s.procs[s.mmu].quantum
    ensures |es| < 5 - s.procs[s.mmu].quantum ==>
              var r := Run(s, es);
              && r.current == Some(s.mmu) && r.mmu == s.mmu && r.gprs == s.gprs && r.pc == s.pc && s.mmu in r.procs
              && r.procs[s.mmu].status == Running && r.procs[s.mmu].quantum == s.procs[s.mmu].quantum + |es|
    ensures |es| == 5 - s.procs[s.mmu].quantum ==>
              && Possible(s, es[..|es| - 1])
              && var t := Run(s, es[..|es| - 1]);
                 t.mmu == s.mmu && s.mmu in t.procs && Linked(SliceOver(t)) && Run(s, es) == Schedule(SliceOver(t))
    decreases |es|
  {
    hide Within, Distinct, Inv, Step, Schedule, Enabled, SliceOver, Run, Possible;
    InvIsCurrent(s);
    SliceInRange(s, s.mmu);
    if es == [] {
      NoEvents(s, es);
    } else {
      EnabledFirst(s, es);
      RunFirst(s, es);
      OneTick(s);
      StepKeeps(s, es[0]);
      if s.procs[s.mmu].quantum == 4 {
        assert es[1..] == [] && es[..0] == [];
        NoEvents(s, []);
        NoEvents(Step(s, es[0]), []);
      } else {
        FiveTicks(Step(s, es[0]), es[1..]);
        if |es| == 5 - s.procs[s.mmu].quantum {
          var before := es[..|es| - 1];
          assert before[0] == es[0] && before[1..] == es[1..][..|es| - 2];
          RunFirst(s, before);
        }
      }
    }
  }

  lemma InvIsCurrent(s: State)
    requires Inv(s)
    ensures Linked(s) && s.mmu in s.procs && s.current == Some(s.mmu) && s.procs[s.mmu].status == Running
  {
  }

  lemma NoEvents(s: State, es: seq<Event>)
    requires es == []
    ensures Possible(s, es) && Run(s, es) == s
  {
  }

  lemma RunFirst(s: State, es: seq<Event>)
    requires es != [] && Enabled(s, es[0]) && Possible(Step(s, es[0]), es[1..])
    ensures Possible(s, es) && Run(s, es) == Run(Step(s, es[0]), es[1..])
  {
    hide Enabled, Step;
  }

  lemma OneTick(s: State)
    requires Inv(s) && Enabled(s, TimerInterrupt) && s.procs[s.mmu].id != 0
    ensures var p, r := s.procs[s.mmu], Step(s, TimerInterrupt);
            && (p.quantum < 4 ==>
                  && r.current == Some(s.mmu) && r.mmu == s.mmu && r.gprs == s.gprs && r.pc == s.pc
                  && s.mmu in r.procs && r.procs[s.mmu].status == Running && r.procs[s.mmu].id != 0
                  && r.procs[s.mmu].quantum == p.quantum + 1)
            && (p.quantum == 4 ==> Linked(SliceOver(s)) && r == Schedule(SliceOver(s)))
  {
    hide Within, Distinct, VmInv, Table, RunsAtMost, Timer, Schedule, SliceOver;
    TimerTick(s);
  }
}
