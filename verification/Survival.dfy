/** Who dies in a step and what a step prints, both read off the private machines alone. */
module Survival {
  import opened Options
  import opened Isa
  import opened Paging
  import opened AddressSpaces
  import opened Kernel
  import opened KernelInvariant
  import opened Power
  import opened FrameAccounting
  import opened Isolation

  /** The string printer on the pages of a private machine. */
  ghost function PrivateWalk(pages: map<nat, seq<Word>>, vaddr: Word, n: nat): Walk
    requires PagesOk(pages)
    decreases n
  {
    if n == 0 then Walk([], Unfinished)
    else if Page(vaddr) !in pages then Walk([], BadAddress)
    else
      var w := WordAt(pages, vaddr);
      if w % 256 == 0 then Walk([], Terminated)
      else
        var rest := PrivateWalk(pages, Wrap(vaddr + 1), n - 1);
        Walk(WordText(w) + rest.text, rest.end)
  }

  lemma {:induction false} WalkIsPrivate(vm: Vm, a: Addr, vaddr: Word, n: nat)
    requires VmInv(vm) && a in vm.tables && PagesOk(View(vm, a))
    ensures WalkString(vm.tables[a], vm.mem, vaddr, n) == PrivateWalk(View(vm, a), vaddr, n)
    decreases n
  {
    hide VmInv, View, Translate, WordText;
    if n > 0 {
      AbsentOrShown(vm, a, vaddr);
      WalkIsPrivate(vm, a, Wrap(vaddr + 1), n - 1);
    }
  }

  lemma AbsentOrShown(vm: Vm, a: Addr, vaddr: Word)
    requires VmInv(vm) && a in vm.tables && PagesOk(View(vm, a))
    ensures var e := vm.tables[a][Page(vaddr)];
            && (e.present ==> e.frame < FRAMES)
            && (Page(vaddr) in View(vm, a) <==> e.present)
            && (Page(vaddr) in View(vm, a) ==> vm.mem[e.frame * PAGE + Offset(vaddr)] == WordAt(View(vm, a), vaddr))
  {
    hide VmInv;
    ReadView(vm, a, vaddr, Read);
    if Page(vaddr) in View(vm, a) {
      WalkWord(vm, a, vaddr);
    }
    if vm.tables[a][Page(vaddr)].present {
      EntryInRange(vm, a, Page(vaddr));
    }
  }

  lemma EntryInRange(vm: Vm, a: Addr, v: nat)
    requires VmInv(vm) && a in vm.tables && v < PTES && vm.tables[a][v].present
    ensures vm.tables[a][v].frame < FRAMES
  {
    assert Maps(vm, a, v, vm.tables[a][v].frame);
  }

  lemma ViewOk(vm: Vm, a: Addr)
    requires a in vm.tables
    ensures PagesOk(View(vm, a))
  {
  }

  // ---------- death ----------

  /** The next cycle is the last one of this machine: an illegal instruction, an access outside the
      pages it may use, a page fault when no frame is free, its exit call, or (unless it is a
      machine of process number 0) printing a string that runs into an absent page. */
  ghost predicate Condemned(m: Private, user: bool, freeFrame: bool)
    requires PagesOk(m.pages)
  {
    Ends(m, PrivateCycle(m), user, freeFrame)
  }

  ghost predicate Ends(m: Private, o: Outcome, user: bool, freeFrame: bool)
    requires o.Traps? ==> PagesOk(o.m.pages)
  {
    match o
    case Continues(_) => false
    case Faults(vaddr) => !(Page(vaddr) < m.numPages && freeFrame)
    case Traps(r) => r.gprs[0] == 0
      || (r.gprs[0] == 1 && user && PrivateWalk(r.pages, r.gprs[1], WALK).end == BadAddress)
    case Dies => true
    case Divides => false
  }

  ghost predicate FreeFrame(s: State) {
    FirstFree(s.vm.frames, 2) < FRAMES
  }

  /** What becomes of the running process: if its end has come, it is gone, or, for the idle process,
      the machine is off. Nobody else goes. */
  ghost predicate Ended(s: State, r: State, end: bool) {
    && r.procs.Keys == (if end && s.mmu != s.idle then s.procs.Keys - {s.mmu} else s.procs.Keys)
    && r.on == (s.on && !(end && s.mmu == s.idle))
  }

  lemma ExceptionEnds(s: State, pageFault: bool, vaddr: Word)
    requires Inv(s) && (pageFault ==> Page(vaddr) !in View(s.vm, s.mmu))
    ensures var r := Exception(s, pageFault, vaddr);
            && Ended(s, r, !(pageFault && Page(vaddr) < s.procs[s.mmu].numPages && FreeFrame(s)))
            && r.out == s.out
  {
    hide Within, Distinct, View, VmInv, Table, RunsAtMost, DestroyCurrent, DemandPage;
    Unmapped(s, vaddr);
    if s.mmu != s.idle {
      DestroyCurrentSame(s);
      DestroyCurrentSteady(s);
    }
  }

  lemma Unmapped(s: State, vaddr: Word)
    requires Inv(s)
    ensures Page(vaddr) !in View(s.vm, s.mmu) ==> !s.vm.tables[s.mmu][Page(vaddr)].present
  {
    hide Within, Distinct, Table, RunsAtMost;
    ViewOk(s.vm, s.mmu);
    AbsentOrShown(s.vm, s.mmu, vaddr);
  }

  /** A kill command takes the process with that number, if the number is not 0. */
  lemma KillTakes(s: State, pid: nat, a: Addr)
    requires Inv(s) && a in s.procs
    ensures a !in Kill(s, pid).procs <==> pid != 0 && s.procs[a].id == pid
  {
    hide Within, Distinct, View, VmInv, RunsAtMost, DestroyCurrent, Remove, Erased, Successor;
    if pid != 0 {
      var found := FindPid(s.procs, s.order, pid);
      if found.Some? && s.current == found {
        DestroyCurrentSame(s);
      }
    }
  }

  /** The print call: all that matters is the private machine's own walk. */
  lemma PrintEnds(s: State)
    requires Inv(s)
    ensures var walk := PrivateWalk(View(s.vm, s.mmu), s.gprs[1], WALK);
            && Ended(s, PrintString(s), s.procs[s.mmu].id != 0 && walk.end == BadAddress)
            && PrintString(s).out == s.out + walk.text
  {
    hide Within, Distinct, View, VmInv, RunsAtMost, Kill, WalkString, PrivateWalk, Table;
    ViewOk(s.vm, s.mmu);
    WalkIsPrivate(s.vm, s.mmu, s.gprs[1], WALK);
    var s1 := s.(out := s.out + WalkString(s.vm.tables[s.mmu], s.vm.mem, s.gprs[1], WALK).text);
    KillEnds(s1);
  }

  lemma KillEnds(s: State)
    requires Inv(s)
    ensures Ended(s, Kill(s, s.procs[s.mmu].id), s.procs[s.mmu].id != 0) && Kill(s, s.procs[s.mmu].id).out == s.out
  {
    hide View, VmInv, RunsAtMost, Kill, Table, Distinct;
    var pid := s.procs[s.mmu].id;
    var r := Kill(s, pid);
    assert r.procs.Keys <= s.procs.Keys by {
      assert Within(s, r);
    }
    forall a | a in s.procs ensures a !in r.procs <==> pid != 0 && s.procs[a].id == pid {
      KillTakes(s, pid, a);
    }
    KillSteady(s, pid);
    OneOfEach(s, s.mmu);
  }

  lemma OneOfEach(s: State, c: Addr)
    requires Inv(s) && c in s.procs
    ensures s.procs[c].id != 0 ==> forall a :: a in s.procs && s.procs[a].id == s.procs[c].id ==> a == c
  {
  }

  /** What the machine's next cycle sends to the terminal. */
  ghost function Output(m: Private): seq<Word>
    requires PagesOk(m.pages)
  {
    Shows(PrivateCycle(m))
  }

  ghost function Shows(o: Outcome): seq<Word>
    requires o.Traps? ==> PagesOk(o.m.pages)
  {
    if o.Traps? then CallText(o.m.gprs, o.m.pages) else []
  }

  /** What a system call with these registers prints. */
  ghost function CallText(gprs: Regs, pages: map<nat, seq<Word>>): seq<Word>
    requires PagesOk(pages)
  {
    match gprs[0]
    case 1 => PrivateWalk(pages, gprs[1], WALK).text
    case 2 => [10]
    case 3 => Decimal(gprs[1])
    case _ => []
  }

  /** The number that decimal digits stand for. */
  function Reading(digits: seq<Word>): int {
    if digits == [] then 0 else Reading(digits[..|digits| - 1]) * 10 + (digits[|digits| - 1] as int - 48)
  }

  /** What the integer call prints is the number in digits, without leading zeros. */
  lemma {:induction false} DecimalReads(n: nat)
    ensures Reading(Decimal(n)) == n && (n > 0 ==> Decimal(n)[0] != 48)
    ensures forall i :: 0 <= i < |Decimal(n)| ==> 48 <= Decimal(n)[i] < 58
  {
    if n >= 10 {
      DecimalReads(n / 10);
      assert Decimal(n)[..|Decimal(n)| - 1] == Decimal(n / 10);
    } else {
      assert Decimal(n)[..0] == [];
    }
  }

  /** What the call in register 0 ends and prints. */
  lemma SystemCallEnds(s: State, time: Word)
    requires Inv(s) && (s.gprs[0] == 0 ==> s.current != Some(s.idle))
    ensures var r, walk := SystemCall(s, time), PrivateWalk(View(s.vm, s.mmu), s.gprs[1], WALK);
            && Ended(s, r, s.gprs[0] == 0 || (s.gprs[0] == 1 && s.procs[s.mmu].id != 0 && walk.end == BadAddress))
            && r.out == s.out +
               match s.gprs[0] case 1 => walk.text case 2 => [10] case 3 => Decimal(s.gprs[1]) case _ => []
  {
    hide Within, Distinct, View, VmInv, Table, RunsAtMost, DestroyCurrent, Schedule, Malloc, Free, Sleep, PrintString,
      PrivateWalk, Decimal;
    match s.gprs[0]
    case 0 => DestroyCurrentSame(s); DestroyCurrentSteady(s);
    case 1 => PrintEnds(s);
    case 4 => MallocSteady(s);
    case 5 => FreeSteady(s);
    case 6 => SleepSteady(s);
    case _ =>
  }

  lemma AccessGranted(s: State, addr: Word, kind: AccessKind)
    requires Inv(s)
    ensures Page(addr) in View(s.vm, s.mmu) ==>
              var access := Translate(s.vm.tables[s.mmu], addr, kind); access.Granted? && access.paddr < MEMORY
    ensures Page(addr) !in View(s.vm, s.mmu) ==> Translate(s.vm.tables[s.mmu], addr, kind) == PageFault
  {
    hide Within, Distinct, View, VmInv, Table, RunsAtMost;
    ReadView(s.vm, s.mmu, addr, kind);
  }

  /** What one instruction kills and prints, given what the private machine makes of it. */
  lemma PerformEnds(s: State, e: Effect, next: Word, time: Word)
    requires Inv(s) && (e.Trap? && s.gprs[0] == 0 ==> s.current != Some(s.idle)) && e != Crash
    ensures var r, m := Perform(s, e, next, time), PrivateOf(s, s.mmu);
            && Ended(s, r, Ends(m, PrivatePerform(m, e, next), s.procs[s.mmu].id != 0, FreeFrame(s)))
            && r.out == s.out + Shows(PrivatePerform(m, e, next))
  {
    hide Within, Distinct, View, VmInv, Table, RunsAtMost, Exception, Translate, StoreAt, SystemCall, PrivateWalk,
      Decimal;
    match e
    case ReadWord(addr, dest) => AccessEnds(s, e, next, time);
    case WriteWord(addr, value) => AccessEnds(s, e, next, time);
    case Trap => SystemCallEnds(s.(pc := next), time);
    case BadInstruction => ExceptionEnds(s, false, s.pc);
    case Registers(gprs, pc) =>
  }

  lemma AccessEnds(s: State, e: Effect, next: Word, time: Word)
    requires Inv(s) && (e.ReadWord? || e.WriteWord?)
    ensures var r, m := Perform(s, e, next, time), PrivateOf(s, s.mmu);
            && Ended(s, r, Ends(m, PrivatePerform(m, e, next), s.procs[s.mmu].id != 0, FreeFrame(s)))
            && r.out == s.out + Shows(PrivatePerform(m, e, next))
  {
    hide Within, Distinct, View, VmInv, Table, RunsAtMost, Exception, Translate, StoreAt, PrivateWalk, Decimal;
    AccessGranted(s, e.addr, if e.ReadWord? then Read else Write);
    if Page(e.addr) !in View(s.vm, s.mmu) {
      ExceptionEnds(s, true, e.addr);
    }
  }

  lemma CycleEnds(s: State, time: Word)
    requires Inv(s) && Enabled(s, CpuCycle(time))
    ensures var r, m := Cycle(s, time), PrivateOf(s, s.mmu);
            && Ended(s, r, Condemned(m, s.procs[s.mmu].id != 0, FreeFrame(s)))
            && r.out == s.out + Output(m)
  {
    hide Within, View, VmInv, Table, RunsAtMost, Exception, Touch, Perform, Decode, Translate, PrivatePerform, Ends,
      Shows, FreeFrame, Linked;
    TouchAll(s);
    ReadView(s.vm, s.mmu, s.pc, Fetch);
    if Page(s.pc) in View(s.vm, s.mmu) {
      var t, next := Touch(s, s.pc, Fetch), Wrap(s.pc + 1);
      CrashIndependent(Fetched(s).value, s.gprs, next, 0);
      PerformEnds(t, Execute(Decode(WordAt(View(s.vm, s.mmu), s.pc)), s.gprs, next), next, time);
    } else {
      FaultEnds(s);
      ExceptionEnds(s, true, s.pc);
    }
  }

  /** Recording the fetch in the usage bits changes nothing a process can see. */
  lemma TouchAll(s: State)
    requires Inv(s)
    ensures VmInv(s.vm) && s.mmu in s.vm.tables
    ensures var t := Touch(s, s.pc, Fetch);
            && Inv(t) && t.procs == s.procs && t.mmu == s.mmu && t.gprs == s.gprs && t.pc == s.pc && t.out == s.out
            && t.idle == s.idle && t.current == s.current && t.on == s.on
               && PrivateOf(t, s.mmu) == PrivateOf(s, s.mmu) && FreeFrame(t) == FreeFrame(s)
  {
    hide Within, Distinct, View, VmInv, Table, RunsAtMost;
    TouchSame(s, s.pc, Fetch);
    TouchFields(s, s.pc, Fetch);
    TouchKeeps(s, s.pc, Fetch);
  }

  lemma FaultEnds(s: State)
    requires Inv(s) && Page(s.pc) !in View(s.vm, s.mmu)
    ensures PrivateCycle(PrivateOf(s, s.mmu)) == Faults(s.pc)
    ensures Shows(Faults(s.pc)) == [] && s.out + [] == s.out
    ensures Ends(PrivateOf(s, s.mmu), Faults(s.pc), s.procs[s.mmu].id != 0, FreeFrame(s))
            <==> !(Page(s.pc) < s.procs[s.mmu].numPages && FreeFrame(s))
  {
    hide Within, Distinct, View, VmInv, Table, RunsAtMost;
  }

  // ---------- events ----------

  /** The running process's next cycle is its last. */
  ghost predicate LastCycle(s: State)
    requires Linked(s) && s.mmu in s.procs
  {
    Condemned(PrivateOf(s, s.mmu), s.procs[s.mmu].id != 0, FreeFrame(s))
  }

  /** Exactly who dies in a step: the process a kill command names, or the one whose own cycle is its
      last. No process can end another. */
  lemma StepSurvivors(s: State, e: Event, a: Addr)
    requires Inv(s) && Enabled(s, e) && a in s.procs
    ensures a !in Step(s, e).procs <==>
            match e
            case KillCommand(pid) => pid != 0 && s.procs[a].id == pid
            case CpuCycle(_) => a == s.mmu && a != s.idle && LastCycle(s)
            case _ => false
  {
    hide Within, Distinct, View, VmInv, Table, RunsAtMost, Timer, Cycle, LoadProgram, Kill, Condemned;
    match e
    case CpuCycle(time) => CycleEnds(s, time);
    case LoadCommand(image, isIdle) =>
      if image == [] {
        EmptyLoad(s, isIdle);
      } else {
        LoadSame(s, image, isIdle);
      }
    case KillCommand(pid) => KillTakes(s, pid, a);
    case _ =>
  }

  /** Exactly when the machine goes off: by the quit command, or because the idle process executes an
      illegal instruction or runs into a page fault that cannot be served. No user process can
      switch it off. */
  lemma StepStaysOn(s: State, e: Event)
    requires Inv(s) && Enabled(s, e)
    ensures Step(s, e).on <==> !(e.QuitCommand? || (e.CpuCycle? && s.mmu == s.idle && LastCycle(s)))
  {
    hide Within, Distinct, View, VmInv, Table, RunsAtMost, Timer, Cycle, LoadProgram, Kill, Condemned;
    match e
    case TimerInterrupt => TimerSteady(s);
    case CpuCycle(time) => CycleEnds(s, time);
    case LoadCommand(image, isIdle) => LoadSteady(s, image, isIdle);
    case KillCommand(pid) => KillSteady(s, pid);
    case _ =>
  }

  /** What a step prints is what the running process's own cycle prints. */
  lemma StepOutput(s: State, e: Event)
    requires Inv(s) && Enabled(s, e)
    ensures Step(s, e).out == s.out + if e.CpuCycle? then Output(PrivateOf(s, s.mmu)) else []
  {
    hide Within, Distinct, View, VmInv, Table, RunsAtMost, Timer, Cycle, LoadProgram, Kill, Output;
    assert s.out + [] == s.out;
    match e
    case TimerInterrupt => TimerSteady(s);
    case CpuCycle(time) => CycleEnds(s, time);
    case LoadCommand(image, isIdle) => LoadSteady(s, image, isIdle);
    case KillCommand(pid) => KillSteady(s, pid);
    case _ =>
  }
}
