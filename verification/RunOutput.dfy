/** What the terminal receives over whole runs: the texts of the processes' own cycles, interleaved,
    and for each process those of its private machine. */
module RunOutput {
  import opened Options
  import opened Isa
  import opened Paging
  import opened AddressSpaces
  import opened Linker
  import opened Kernel
  import opened KernelInvariant
  import opened Isolation
  import opened Survival
  import opened ProgramInKernel
  import opened SymbolicMachine

  /** One cycle of a process and what it prints. */
  datatype Printed = Printed(who: Addr, text: seq<Word>)

  ghost function Prints(s: State, es: seq<Event>): seq<Printed>
    requires Inv(s) && Possible(s, es)
    decreases |es|
  {
    if es == [] then []
    else
      StepKeeps(s, es[0]);
      (if es[0].CpuCycle? then [Printed(s.mmu, Output(PrivateOf(s, s.mmu)))] else []) + Prints(Step(s, es[0]), es[1..])
  }

  function AllText(prints: seq<Printed>): seq<Word> {
    if prints == [] then [] else prints[0].text + AllText(prints[1..])
  }

  function TextOf(prints: seq<Printed>, a: Addr): seq<Word> {
    if prints == [] then [] else (if prints[0].who == a then prints[0].text else []) + TextOf(prints[1..], a)
  }

  lemma FirstText(p: Printed, rest: seq<Printed>, a: Addr)
    ensures AllText([p] + rest) == p.text + AllText(rest)
    ensures TextOf([p] + rest, a) == (if p.who == a then p.text else []) + TextOf(rest, a)
    ensures AllText([] + rest) == AllText(rest) && TextOf([] + rest, a) == TextOf(rest, a)
  {
    assert ([p] + rest)[1..] == rest;
    assert [] + rest == rest;
  }

  lemma PrintsStep(s: State, es: seq<Event>)
    requires Inv(s) && Possible(s, es) && es != []
    ensures Inv(Step(s, es[0])) && Possible(Step(s, es[0]), es[1..]) && Run(s, es) == Run(Step(s, es[0]), es[1..])
    ensures Prints(s, es) ==
            (if es[0].CpuCycle? then [Printed(s.mmu, Output(PrivateOf(s, s.mmu)))] else [])
              + Prints(Step(s, es[0]), es[1..])
  {
    hide Inv, Step, PrivateOf, Output, Enabled;
    StepKeeps(s, es[0]);
  }

  /** The terminal shows the texts of all cycles, one after the other, and nothing else. */
  lemma {:induction false} RunShows(s: State, es: seq<Event>)
    requires Inv(s) && Possible(s, es)
    ensures Run(s, es).out == s.out + AllText(Prints(s, es))
    decreases |es|
  {
    hide Inv, Step, PrivateOf, Output, Enabled, AllText, Possible, Run;
    if es == [] {
      NothingShown(s, es);
    } else {
      PrintsStep(s, es);
      PossibleFirst(s, es);
      StepOutput(s, es[0]);
      RunShows(Step(s, es[0]), es[1..]);
      var rest := Prints(Step(s, es[0]), es[1..]);
      FirstText(Printed(s.mmu, Output(PrivateOf(s, s.mmu))), rest, s.mmu);
      assert s.out + [] == s.out;
    }
  }

  lemma PossibleFirst(s: State, es: seq<Event>)
    requires Possible(s, es) && es != []
    ensures Enabled(s, es[0])
  {
  }

  lemma InvMmu(s: State)
    requires Inv(s)
    ensures Linked(s) && s.mmu in s.procs
  {
  }

  lemma NothingShown(s: State, es: seq<Event>)
    requires es == [] && Inv(s) && Possible(s, es)
    ensures Run(s, es) == s && s.out + AllText(Prints(s, es)) == s.out
  {
    hide Inv;
  }

  // ---------- one process ----------

  /** What a private machine prints over a number of cycles. */
  ghost function PrivateOutput(m: Private, times: seq<Word>): seq<Word>
    requires PagesOk(m.pages)
    decreases |times|
  {
    if times == [] then [] else Output(m) + PrivateOutput(Advance(m, times[0]), times[1..])
  }

  lemma FirstOutput(m: Private, time: Word, rest: seq<Word>)
    requires PagesOk(m.pages)
    ensures PrivateOutput(m, [time] + rest) == Output(m) + PrivateOutput(Advance(m, time), rest)
    ensures PrivateOutput(m, [] + rest) == PrivateOutput(m, rest) && PrivateOutput(m, []) == []
  {
    hide Advance, Output;
    assert ([time] + rest)[1..] == rest;
    assert [] + rest == rest;
  }

  lemma OwnStep(s: State, es: seq<Event>, a: Addr)
    requires Possible(s, es) && es != []
    ensures OwnTimes(s, es, a) == (if OwnCycle(s, es[0], a) then [es[0].time] else [])
            + OwnTimes(Step(s, es[0]), es[1..], a)
  {
    hide Step, Enabled;
  }

  /** A process that is gone, or never was, neither runs nor prints. */
  lemma {:induction false} DeadSilent(s: State, es: seq<Event>, a: Addr)
    requires Inv(s) && Possible(s, es) && a !in s.procs && a < s.nextAddr
    ensures TextOf(Prints(s, es), a) == [] && OwnTimes(s, es, a) == []
    decreases |es|
  {
    hide Inv, Step, PrivateOf, Output, Enabled, TextOf, Possible;
    if es == [] {
      NoPrints(s, es, a);
    } else {
      PrintsStep(s, es);
      PossibleFirst(s, es);
      OwnStep(s, es, a);
      StepAddresses(s, es[0]);
      InvMmu(s);
      DeadSilent(Step(s, es[0]), es[1..], a);
      FirstText(Printed(s.mmu, Output(PrivateOf(s, s.mmu))), Prints(Step(s, es[0]), es[1..]), a);
    }
  }

  lemma NoPrints(s: State, es: seq<Event>, a: Addr)
    requires Inv(s) && Possible(s, es) && es == []
    ensures TextOf(Prints(s, es), a) == [] && OwnTimes(s, es, a) == []
  {
    hide Inv;
  }

  /** A cycle that switches the machine off prints nothing. */
  lemma OffSilent(s: State, e: Event)
    requires Inv(s) && Enabled(s, e) && e.CpuCycle? && !Step(s, e).on
    ensures Output(PrivateOf(s, s.mmu)) == []
  {
    hide Within, Distinct, View, VmInv, Table, RunsAtMost, Cycle, PrivateCycle, FreeFrame, Step;
    StepStaysOn(s, e);
    IdleCalls(s, e);
  }

  /** The idle process, whose number is 0, does not end in a system call. */
  lemma IdleCalls(s: State, e: Event)
    requires Inv(s) && Enabled(s, e) && e.CpuCycle? && s.mmu == s.idle
    ensures s.procs[s.mmu].id == 0 && (PrivateCycle(PrivateOf(s, s.mmu)).Traps? ==> PrivateOf(s, s.mmu).gprs[0] != 0)
  {
    hide Within, Distinct, View, VmInv, Table, RunsAtMost, Decode, Translate;
    ReadView(s.vm, s.mmu, s.pc, Fetch);
    TrapIsSyscall(s);
  }

  lemma TrapIsSyscall(s: State)
    requires Inv(s)
    ensures PrivateCycle(PrivateOf(s, s.mmu)).Traps? ==> Fetched(s) == Some(Instr.Syscall)
  {
    hide Within, Distinct, View, VmInv, Table, RunsAtMost, Decode, Translate;
    ReadView(s.vm, s.mmu, s.pc, Fetch);
  }

  /** Over any run, what process a contributes to the terminal is what its private machine prints in
      its own cycles: nobody can print in its name, nor keep it from printing. */
  lemma {:induction false} OwnTextIsPrivate(s: State, es: seq<Event>, a: Addr)
    requires Inv(s) && Possible(s, es) && a in s.procs
    ensures TextOf(Prints(s, es), a) == PrivateOutput(PrivateOf(s, a), OwnTimes(s, es, a))
    decreases |es|
  {
    hide Inv, Step, PrivateOf, Output, Enabled, TextOf, Possible, PrivateOutput, Advance, OwnTimes, Prints;
    InvLinked(s);
    if es == [] {
      NoPrints(s, es, a);
      FirstOutput(PrivateOf(s, a), 0, []);
    } else {
      PossibleFirst(s, es);
      var e, t := es[0], Step(s, es[0]);
      PrintsStep(s, es);
      OwnStep(s, es, a);
      StepAddresses(s, e);
      InvMmu(s);
      FirstText(Printed(s.mmu, Output(PrivateOf(s, s.mmu))), Prints(t, es[1..]), a);
      if a in t.procs {
        StepIsolated(s, e, a);
        OwnTextIsPrivate(t, es[1..], a);
        FirstOutput(PrivateOf(s, a), if e.CpuCycle? then e.time else 0, OwnTimes(t, es[1..], a));
      } else {
        DeadSilent(t, es[1..], a);
        FirstOutput(PrivateOf(s, a), if e.CpuCycle? then e.time else 0, []);
        FirstOutput(Advance(PrivateOf(s, a), if e.CpuCycle? then e.time else 0), 0, []);
      }
      if e.CpuCycle? && !t.on {
        OffSilent(s, e);
      }
    }
  }

  // ---------- programs ----------

  /** What a program prints in its next step, and over a run. */
  ghost function SymbolicText(items: seq<Item>, s: Sym): seq<Word>
    requires s.at <= |items| && PagesOk(s.pages)
  {
    match SymbolicStep(items, s)
    case Calls(r) => CallText(r.gprs, r.pages)
    case _ => []
  }

  ghost function SymbolicOutput(items: seq<Item>, s: Sym, times: seq<Word>): seq<Word>
    requires s.at <= |items| && PagesOk(s.pages)
    decreases |times|
  {
    if times == [] then []
    else SymbolicText(items, s) + SymbolicOutput(items, SymbolicAdvance(items, s, times[0]), times[1..])
  }

  lemma TextSimulated(items: seq<Item>, s: Sym)
    requires WellFormed(items) && Encodable(items) && s.at <= |items| && PagesOk(s.pages) && Intact(items, s.pages)
    requires SymbolicStep(items, s) != LeavesCode
    ensures Output(Concrete(items, s)) == SymbolicText(items, s)
  {
    hide SymbolicStep, PrivateCycle, AddressOf, Intact, Encodable, WellFormed, CallText;
    StepSimulated(items, s);
  }

  /** The emitted words print what the program prints. */
  lemma {:induction false} OutputSimulated(items: seq<Item>, s: Sym, times: seq<Word>)
    requires WellFormed(items) && Encodable(items) && s.at <= |items| && PagesOk(s.pages)
    requires Intact(items, s.pages) && Harmless(items, s, times)
    ensures PrivateOutput(Concrete(items, s), times) == SymbolicOutput(items, s, times)
    decreases |times|
  {
    hide Concrete, Intact, Advance, SymbolicAdvance, SymbolicStep, TouchesCode, WellFormed, AddressOf, Output,
      SymbolicText;
    if times != [] {
      TextSimulated(items, s);
      AdvanceSimulated(items, s, times[0]);
      IntactKept(items, s, times[0]);
      OutputSimulated(items, SymbolicAdvance(items, s, times[0]), times[1..]);
    }
  }

  /** From address 1: the jump to `_start` prints nothing, then the program prints. */
  lemma OutputFromBoot(items: seq<Item>, m: Private, time: Word, times: seq<Word>)
    requires WellFormed(items) && Encodable(items) && Link(items) == Binary(Image(items))
    requires m.pc == 1 && PagesOk(m.pages) && ShowsImage(m.pages, Image(items), PagesNeeded(|Image(items)|))
    requires Harmless(items, Start(items, m), times)
    ensures PrivateOutput(m, [time] + times) == SymbolicOutput(items, Start(items, m), times)
  {
    hide Harmless, Advance, Encodable, WellFormed, ShowsImage, Image, Intact, Concrete, PrivateOutput, SymbolicOutput,
      CallText, PrivateCycle;
    ImageIntact(items, m.pages);
    FirstJump(items, m, time);
    FirstOutput(m, time, times);
    OutputSimulated(items, Start(items, m), times);
    assert [] + SymbolicOutput(items, Start(items, m), times) == SymbolicOutput(items, Start(items, m), times);
  }

  /** What a process prints among all others, over any run, is what its source program prints. */
  lemma ProgramPrintsAsWritten(items: seq<Item>, s: State, a: Addr, es: seq<Event>, time: Word, times: seq<Word>)
    requires WellFormed(items) && Encodable(items) && Link(items) == Binary(Image(items))
    requires Inv(s) && Fresh(s, a, Image(items)) && Possible(s, es) && OwnTimes(s, es, a) == [time] + times
    requires Harmless(items, Start(items, PrivateOf(s, a)), times)
    ensures TextOf(Prints(s, es), a) == SymbolicOutput(items, Start(items, PrivateOf(s, a)), times)
  {
    hide Inv, Possible, OwnTimes, Harmless, SymbolicOutput, PrivateOutput, Start, Encodable, WellFormed, ShowsImage,
      Image, PrivateOf, TextOf, Prints;
    OwnTextIsPrivate(s, es, a);
    OutputFromBoot(items, PrivateOf(s, a), time, times);
  }
}
