/** The idle program, followed from its source to the running system: it never leaves its loop, so
    what the kernel assumes of it holds. */
module IdleProgram {
  import opened Isa
  import opened Encoding
  import opened Linker
  import opened Paging
  import opened AddressSpaces
  import opened Kernel
  import opened KernelInvariant
  import opened FrameAccounting
  import opened Isolation
  import opened SymbolicMachine
  import opened ProgramInKernel

  /** `_start: mov r0, 0` and `jump _start`. */
  ghost predicate IsIdle(items: seq<Item>) {
    |items| == 3 && items[0] == Label(START) && items[1] == InstrI(MOV, 0, Number(0))
      && items[2] == InstrI(JUMP, 0, Name(START))
  }

  lemma IdleLabels(items: seq<Item>)
    requires IsIdle(items)
    ensures |items| == 3 && items[0] == Label(START)
    ensures items[1] == InstrI(MOV, 0, Number(0)) && items[2] == InstrI(JUMP, 0, Name(START))
    ensures FirstLabel(items, START) == 0
    ensures SkipLabels(items, 0) == 1 && SkipLabels(items, 1) == 1 && SkipLabels(items, 2) == 2
    ensures AddressOf(items, 0) == 2 && AddressOf(items, 1) == 2 && AddressOf(items, 2) == 3 && AddressOf(items, 3) == 4
  {
    assert items[0] == Label(START);
    assert AddressOf(items, 1) == AddressOf(items, 0) + Size(items[0]);
    assert AddressOf(items, 2) == AddressOf(items, 1) + Size(items[1]);
    assert AddressOf(items, 3) == AddressOf(items, 2) + Size(items[2]);
  }

  /** The linker accepts the program, and the processor can read all its words. */
  lemma IdleLinks(items: seq<Item>)
    requires IsIdle(items)
    ensures Link(items) == Binary(Image(items)) && WellFormed(items) && Encodable(items)
    ensures |Image(items)| == 4
  {
    hide FirstLabel, AddressOf, Image, IsIdle, EncodeI, EncodeR;
    IdleLabels(items);
    AddressIsPosition(items, 2);
    assert forall i :: 0 <= i < |items| ==> !Dangling(items, items[i]);
  }

  /** Every step of the idle program is an ordinary instruction that leaves memory alone. */
  lemma IdleStep(items: seq<Item>, s: Sym)
    requires IsIdle(items) && AddressOf(items, |items|) <= 0x1_0000
    requires s.at <= 2 && PagesOk(s.pages)
    ensures SymbolicStep(items, s).Runs? && !TouchesCode(items, s)
    ensures SymbolicStep(items, s).s.at <= 2 && SymbolicStep(items, s).s.pages == s.pages
  {
    hide SkipLabels, FirstLabel, AddressOf, IsIdle, RegisterStep, PageGone, Wrap, LabelAddress;
    IdleLabels(items);
  }

  lemma {:induction false} IdleRuns(items: seq<Item>, s: Sym, times: seq<Word>)
    requires IsIdle(items) && s.at <= 2 && PagesOk(s.pages) && AddressOf(items, |items|) <= 0x1_0000
    ensures Harmless(items, s, times) && SymbolicRun(items, s, times).at <= 2
    decreases |times|
  {
    IdleLabels(items);
    hide SymbolicStep, TouchesCode, AddressOf, IsIdle;
    if times != [] {
      IdleStep(items, s);
      IdleRuns(items, SymbolicAdvance(items, s, times[0]), times[1..]);
    }
  }

  /** The next cycle is an instruction that completes without fault, trap or end. */
  ghost predicate Ordinary(m: Private) {
    PagesOk(m.pages) && PrivateCycle(m).Continues?
  }

  /** A process running the idle program executes ordinary instructions for ever: no cycle of it is a
      system call, a fault, a division by zero or its end. */
  lemma IdleForever(items: seq<Item>, m: Private, times: seq<Word>)
    requires IsIdle(items) && m.pc == 1 && PagesOk(m.pages)
             && ShowsImage(m.pages, Image(items), PagesNeeded(|Image(items)|))
    ensures Ordinary(PrivateRun(m, times))
  {
    IdleLinks(items);
    IdleLabels(items);
    hide PrivateCycle, PrivateRun, ShowsImage, Image, Link, WellFormed, Encodable, Harmless, SymbolicRun, Concrete,
      FirstLabel, AddressOf, IsIdle;
    if times == [] {
      NoTimes(m);
      FirstJump(items, m, 0);
    } else {
      var time, rest := times[0], times[1..];
      assert times == [time] + rest;
      assert AddressOf(items, |items|) <= 0x1_0000;
      IdleRuns(items, Start(items, m), rest);
      ProgramFromBoot(items, m, time, rest);
      ImageIntact(items, m.pages);
      RunSimulated(items, Start(items, m), rest);
      var s := SymbolicRun(items, Start(items, m), rest);
      IdleStep(items, s);
      StepSimulated(items, s);
    }
  }

  /** An ordinary instruction of the current process needs nothing from outside. */
  lemma OrdinaryIsEnabled(s: State)
    requires Inv(s) && Ordinary(PrivateOf(s, s.mmu))
    ensures Fetched(s).Some? && Fetched(s).value != Instr.Syscall && Execute(Fetched(s).value, s.gprs, 0) != Crash
  {
    hide Within, Distinct, View, VmInv, Table, RunsAtMost, Decode, Translate;
    ReadView(s.vm, s.mmu, s.pc, Fetch);
    CrashIndependent(Decode(WordAt(View(s.vm, s.mmu), s.pc)), s.gprs, Wrap(s.pc + 1), 0);
  }

  // ---------- the system with this idle program ----------

  /** The idle process never leaves its loop, from here on. */
  ghost predicate IdleLoops(s: State)
    requires Linked(s)
  {
    forall times: seq<Word> :: Ordinary(PrivateRun(PrivateOf(s, s.idle), times))
  }

  /** What is asked of the outside about user programs alone: no division by zero, and fewer than
      65536 processes. Nothing about the idle program. */
  ghost predicate UserEnabled(s: State, e: Event) {
    && s.on && Linked(s) && s.mmu in s.procs
    && match e
       case CpuCycle(_) => s.mmu != s.idle && Fetched(s).Some? ==> Execute(Fetched(s).value, s.gprs, 0) != Crash
       case LoadCommand(image, isIdle) => image != [] && !isIdle ==> s.nextPid < 0xFFFF
       case _ => true
  }

  ghost predicate UserPossible(s: State, es: seq<Event>)
    decreases |es|
  {
    es == [] || (UserEnabled(s, es[0]) && (Enabled(s, es[0]) ==> UserPossible(Step(s, es[0]), es[1..])))
  }

  lemma IdleEnables(s: State, e: Event)
    requires Inv(s) && IdleLoops(s) && UserEnabled(s, e)
    ensures Enabled(s, e)
  {
    hide Within, Distinct, View, VmInv, Table, RunsAtMost, PrivateOf, PrivateRun, Fetched, Execute;
    if s.mmu == s.idle {
      NoTimes(PrivateOf(s, s.idle));
      assert Ordinary(PrivateRun(PrivateOf(s, s.idle), []));
      OrdinaryIsEnabled(s);
    }
  }

  lemma SameIdle(s: State, e: Event)
    requires Inv(s) && Enabled(s, e)
    ensures Linked(Step(s, e)) && Step(s, e).idle == s.idle && s.idle in s.procs && s.idle in Step(s, e).procs
  {
    hide VmInv, Table, RunsAtMost, View, Timer, Cycle, Kill, Create, SaveContext, RestoreContext, Distinct;
    match e
    case LoadCommand(image, isIdle) =>
      if image != [] {
        CreateFields(s, image, isIdle);
      }
    case _ =>
  }

  lemma LoopsOn(m: Private, time: Word)
    requires PagesOk(m.pages) && forall times: seq<Word> :: Ordinary(PrivateRun(m, times))
    ensures forall times: seq<Word> :: Ordinary(PrivateRun(Advance(m, time), times))
  {
    forall times: seq<Word> ensures Ordinary(PrivateRun(Advance(m, time), times)) {
      RunTimes(m, time, times);
      assert Ordinary(PrivateRun(m, [time] + times));
    }
  }

  lemma StillLoops(s: State, e: Event)
    requires Inv(s) && Enabled(s, e) && IdleLoops(s)
    ensures Inv(Step(s, e)) && IdleLoops(Step(s, e))
  {
    hide Within, Inv, Enabled, Step, PrivateOf, PrivateRun, Advance, Ordinary, OwnCycle;
    InvLinked(s);
    StepKeeps(s, e);
    SameIdle(s, e);
    StepIsolated(s, e, s.idle);
    if OwnCycle(s, e, s.idle) {
      OwnIsCycle(s, e, s.idle);
      LoopsOn(PrivateOf(s, s.idle), e.time);
    }
  }

  lemma OwnIsCycle(s: State, e: Event, a: Addr)
    requires Enabled(s, e) && OwnCycle(s, e, a)
    ensures e.CpuCycle?
  {
  }

  lemma {:induction false} LoopsArePossible(s: State, es: seq<Event>)
    requires Inv(s) && IdleLoops(s) && UserPossible(s, es)
    ensures Possible(s, es)
    decreases |es|
  {
    hide Within, Inv, Enabled, Step, IdleLoops, UserEnabled;
    if es != [] {
      IdleEnables(s, es[0]);
      StillLoops(s, es[0]);
      LoopsArePossible(Step(s, es[0]), es[1..]);
    }
  }

  lemma TwoFramesUsed(vm: Vm)
    requires vm.frames == BootFrames()
    ensures |UsedFrames(vm)| == 2
  {
    hide Interval;
    assert UsedFrames(vm) == {0, 1};
  }

  /** Booted with this program, the idle process stands at address 1 with the whole image. */
  lemma IdleBoots(items: seq<Item>)
    requires IsIdle(items)
    ensures Inv(Boot(Image(items))) && Fresh(Boot(Image(items)), 0, Image(items)) && Boot(Image(items)).idle == 0
  {
    IdleLinks(items);
    var image := Image(items);
    BootInv(image);
    BootFresh(image);
  }

  lemma BootFresh(image: seq<Word>)
    requires |image| == 4
    ensures Fresh(Boot(image), 0, image)
  {
    BootInv(image);
    var vm := Vm(BootFrames(), BootMemory(), map[0 := EmptyTable()]);
    EmptyBoot(vm);
    TwoFramesUsed(vm);
    EmptyView(vm);
    EmptyImage(image);
    assert PagesNeeded(|image|) == 1 && Least(1, PTES) == 1;
    LoadPagesAll(vm, 0, image, 0, 1);
    hide View, VmInv, Table, RunsAtMost, LoadPages, UsedFrames, BootFrames, BootMemory, EmptyTable, ShowsImage, Wrap,
      PagesNeeded;
  }

  lemma EmptyBoot(vm: Vm)
    requires vm == Vm(BootFrames(), BootMemory(), map[0 := EmptyTable()])
    ensures VmInv(vm) && forall v: nat :: v < PTES ==> !vm.tables[0][v].present
  {
  }

  /** Booted with this program the system needs nothing of the idle process: whatever the user
      programs and commands do, short of dividing by zero and of 65536 processes, is a run of the
      kernel, and all that is proved of runs holds. */
  lemma IdleNeverExits(items: seq<Item>, es: seq<Event>)
    requires IsIdle(items) && UserPossible(Boot(Image(items)), es)
    ensures Possible(Boot(Image(items)), es) && Inv(Run(Boot(Image(items)), es))
  {
    hide Inv, Run, Possible, IsIdle, UserPossible, Boot, ShowsImage, Image, PrivateOf, IdleLoops;
    IdleBoots(items);
    var s := Boot(Image(items));
    BootLoops(items, s);
    LoopsArePossible(s, es);
    RunKeeps(s, es);
  }

  lemma BootLoops(items: seq<Item>, s: State)
    requires IsIdle(items) && Inv(s) && Fresh(s, s.idle, Image(items))
    ensures IdleLoops(s)
  {
    hide Inv, IsIdle, ShowsImage, Image, PrivateOf, PrivateRun, Ordinary;
    forall times: seq<Word> ensures Ordinary(PrivateRun(PrivateOf(s, s.idle), times)) {
      IdleForever(items, PrivateOf(s, s.idle), times);
    }
  }
}
