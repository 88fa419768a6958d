/** Demand paging cannot be seen by a whole program: through any run a process computes as on a
    machine that has all its pages from the start and never faults. */
module FlatMemory {
  import opened Bits
  import opened Isa
  import opened Paging
  import opened Kernel
  import opened KernelInvariant
  import opened Isolation
  import opened DemandPaging

  /** The machine with every page of the address space mapped, the missing ones as zeros. */
  ghost function Flat(m: Private): (r: Private)
    requires PagesOk(m.pages)
    ensures PagesOk(r.pages) && ZeroExtends(m, r) && !PrivateCycle(r).Faults?
  {
    m.(pages := map v: nat | v < PTES :: if v in m.pages then m.pages[v] else ZEROS)
  }

  /** A run on flat memory: there are no faults, and memory that was freed reads as zeros. */
  ghost function FlatRun(m: Private, times: seq<Word>): Private
    requires PagesOk(m.pages)
    decreases |times|
  {
    if times == [] then m else FlatRun(Flat(Advance(m, times[0])), times[1..])
  }

  /** The cycles of a run that complete an instruction: those that fault are left out. */
  ghost function Productive(m: Private, times: seq<Word>): seq<Word>
    requires PagesOk(m.pages)
    decreases |times|
  {
    if times == [] then []
    else (if PrivateCycle(m).Faults? then [] else [times[0]]) + Productive(Advance(m, times[0]), times[1..])
  }

  /** The pending instruction is a free call of an address that starts no block, in a page that is
      not mapped. */
  ghost predicate FreesNothing(m: Private)
    requires PagesOk(m.pages)
  {
    PrivateCycle(m).Traps? && NothingThere(PrivateCycle(m).m)
  }

  ghost predicate NothingThere(m: Private) {
    m.gprs[0] == 5 && FindBlock(m.blocks, m.gprs[1]) == |m.blocks| && Page(m.gprs[1]) !in m.pages
  }

  ghost predicate NeverFreesNothing(m: Private, times: seq<Word>)
    requires PagesOk(m.pages)
    decreases |times|
  {
    times != [] ==> !FreesNothing(m) && NeverFreesNothing(Advance(m, times[0]), times[1..])
  }

  lemma FlatSame(m: Private, p: Private)
    requires ZeroExtends(m, p)
    ensures Flat(m) == Flat(p)
  {
    assert Flat(m).pages == Flat(p).pages;
  }

  lemma TrapMapped(m: Private)
    requires PagesOk(m.pages) && PrivateCycle(Flat(m)).Traps?
    ensures var r := PrivateCycle(Flat(m)).m; Page(r.gprs[1]) in r.pages
  {
  }

  /** A free call tells a missing page from a page of zeros only when it frees nothing. */
  lemma CallFlat(m: Private, p: Private, time: Word)
    requires ZeroExtends(m, p) && (m.gprs[0] == 5 ==> Page(m.gprs[1]) in p.pages)
    ensures !NothingThere(m) ==> ZeroExtends(PrivateCall(m, time), PrivateCall(p, time))
    ensures NothingThere(m) ==> PrivateCall(m, time).gprs[1] == 0 && PrivateCall(p, time).gprs[1] == 1
  {
  }

  /** One completed instruction: flat memory takes the same step if and only if the instruction is
      not a free call that frees nothing. */
  lemma StepFlat(m: Private, time: Word)
    requires PagesOk(m.pages) && !PrivateCycle(m).Faults?
    ensures Flat(Advance(m, time)) == Flat(Advance(Flat(m), time)) <==> !FreesNothing(m)
  {
    hide PrivateCycle, PrivateCall, NothingThere;
    var p := Flat(m);
    SameWithoutFault(m, p);
    match PrivateCycle(m)
    case Continues(r) => FlatSame(r, PrivateCycle(p).m);
    case Traps(r) =>
      var r' := PrivateCycle(p).m;
      TrapMapped(m);
      CallFlat(r, r', time);
      if !NothingThere(r) {
        FlatSame(PrivateCall(r, time), PrivateCall(r', time));
      }
    case _ => FlatSame(m, p);
  }

  lemma SyscallWord()
    ensures Decode(32256) == Instr.Syscall
  {
    PowersOfTwo();
    assert Pow2(3) == 8 && Pow2(6) == 64 && Pow2(9) == 512;
  }

  lemma SyscallTraps(m: Private)
    requires PagesOk(m.pages) && Page(m.pc) in m.pages && WordAt(m.pages, m.pc) == 32256 && m.pc < 0xFFFF
    ensures PrivateCycle(m) == Traps(m.(pc := m.pc + 1))
  {
    hide Decode, WordAt;
    SyscallWord();
  }

  /** Such a call does tell: here the system call at address 0 frees address 16, whose page was never
      touched, and answers 0; with that page present it answers 1. */
  lemma FreeTells()
    ensures var m := Private([5, 16, 0, 0, 0, 0, 0, 0], 0, map[0 := ZEROS[0 := 32256]], 2, []);
            PagesOk(m.pages) && Advance(m, 0).gprs[1] == 0 && Advance(Flat(m), 0).gprs[1] == 1
  {
    hide PrivateCycle, PrivateCall, Decode, PrivatePerform;
    var m := Private([5, 16, 0, 0, 0, 0, 0, 0], 0, map[0 := ZEROS[0 := 32256]], 2, []);
    var p := Flat(m);
    SyscallTraps(m);
    SyscallTraps(p);
    CallFlat(m.(pc := 1), p.(pc := 1), 0);
  }

  /** The main result: after any run the flat image of the machine is that of the same program on
      flat memory after the completed instructions alone. */
  lemma {:induction false} RunFlat(m: Private, times: seq<Word>)
    requires PagesOk(m.pages) && NeverFreesNothing(m, times)
    ensures Flat(PrivateRun(m, times)) == FlatRun(Flat(m), Productive(m, times))
    decreases |times|
  {
    hide PrivateCycle, Advance, Flat;
    if times != [] {
      var r, rest := Advance(m, times[0]), times[1..];
      RunFlat(r, rest);
      var more := Productive(r, rest);
      if PrivateCycle(m).Faults? {
        FaultFlat(m, times[0]);
        assert [] + more == more;
      } else {
        StepFlat(m, times[0]);
        assert ([times[0]] + more)[1..] == more;
      }
    }
  }

  lemma FaultFlat(m: Private, time: Word)
    requires PagesOk(m.pages) && PrivateCycle(m).Faults?
    ensures Flat(Advance(m, time)) == Flat(m)
  {
    FaultingPage(m);
    ServedExtends(m, PrivateCycle(m).vaddr, m);
    FlatSame(m, Advance(m, time));
  }

  /** The same in the kernel, over any run of events: a live process has the registers, the program
      counter and the memory it would have, alone, on flat memory. */
  lemma FlatFromKernel(s: State, es: seq<Event>, a: Addr)
    requires Inv(s) && Possible(s, es) && a in s.procs && a in Run(s, es).procs
    requires NeverFreesNothing(PrivateOf(s, a), OwnTimes(s, es, a))
    ensures var m := PrivateOf(s, a);
            Flat(PrivateOf(Run(s, es), a)) == FlatRun(Flat(m), Productive(m, OwnTimes(s, es, a)))
  {
    InvLinked(s);
    hide Within, Distinct, PrivateOf, Inv, Run, Possible, OwnTimes, PrivateRun, FlatRun, Productive;
    RunIsolated(s, es, a);
    RunFlat(PrivateOf(s, a), OwnTimes(s, es, a));
  }
}
