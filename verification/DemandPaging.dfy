/** Demand paging is invisible to instructions: a machine that gets its zero pages one fault at a
    time does what a machine with those pages mapped beforehand does. */
module DemandPaging {
  import opened Isa
  import opened Paging
  import opened AddressSpaces
  import opened Kernel
  import opened KernelInvariant
  import opened Power
  import opened Isolation

  /** p is m with further zero pages already mapped. */
  ghost predicate ZeroExtends(m: Private, p: Private) {
    && PagesOk(m.pages) && PagesOk(p.pages)
    && p.gprs == m.gprs && p.pc == m.pc && p.numPages == m.numPages && p.blocks == m.blocks
    && (forall v :: v in m.pages ==> v in p.pages && p.pages[v] == m.pages[v])
    && (forall v :: v in p.pages && v !in m.pages ==> p.pages[v] == ZEROS)
  }

  /** Serving a fault changes nothing but the one page, and does not go beyond a machine that
      already has that page as zeros. */
  lemma ServedExtends(m: Private, vaddr: Word, p: Private)
    requires ZeroExtends(m, p) && Page(vaddr) !in m.pages
    ensures ZeroExtends(m, Served(m, vaddr))
    ensures Page(vaddr) in p.pages ==> ZeroExtends(Served(m, vaddr), p)
  {
  }

  /** Two outcomes are the same up to zero pages mapped beforehand. */
  ghost predicate SameOutcome(o: Outcome, o': Outcome) {
    match o
    case Continues(m) => o'.Continues? && ZeroExtends(m, o'.m)
    case Traps(m) => o'.Traps? && ZeroExtends(m, o'.m)
    case Faults(vaddr) => false
    case _ => o' == o
  }

  /** An instruction that does not fault does the same on the extended machine. */
  lemma SameWithoutFault(m: Private, p: Private)
    requires ZeroExtends(m, p) && !PrivateCycle(m).Faults?
    ensures SameOutcome(PrivateCycle(m), PrivateCycle(p))
  {
    var next := Wrap(m.pc + 1);
    assert WordAt(m.pages, m.pc) == WordAt(p.pages, p.pc);
    var e := Execute(Decode(WordAt(m.pages, m.pc)), m.gprs, next);
    PerformSame(m, p, e, next);
  }

  lemma PerformSame(m: Private, p: Private, e: Effect, next: Word)
    requires ZeroExtends(m, p) && !PrivatePerform(m, e, next).Faults?
    ensures SameOutcome(PrivatePerform(m, e, next), PrivatePerform(p, e, next))
  {
  }

  /** The machine once its pending instruction cannot fault any more: up to two pages are served. */
  function Settled(m: Private): (r: Private)
    requires PagesOk(m.pages)
    ensures PagesOk(r.pages)
  {
    match PrivateCycle(m)
    case Faults(vaddr) =>
      (match PrivateCycle(Served(m, vaddr))
       case Faults(vaddr') => Served(Served(m, vaddr), vaddr')
       case _ => Served(m, vaddr))
    case _ => m
  }

  lemma FaultingPage(m: Private)
    requires PagesOk(m.pages) && PrivateCycle(m).Faults?
    ensures Page(PrivateCycle(m).vaddr) !in m.pages
    ensures Page(m.pc) !in m.pages ==> PrivateCycle(m).vaddr == m.pc
  {
  }

  /** A data fault does not repeat once it is served: the instruction and its address are those
      of the first attempt. */
  lemma DataFaultServed(m: Private)
    requires PagesOk(m.pages) && Page(m.pc) in m.pages && PrivateCycle(m).Faults?
    ensures !PrivateCycle(Served(m, PrivateCycle(m).vaddr)).Faults?
  {
    var r := Served(m, PrivateCycle(m).vaddr);
    FaultingPage(m);
    assert WordAt(r.pages, r.pc) == WordAt(m.pages, m.pc);
  }

  /** Fault transparency: after at most two served faults the instruction does not fault; until
      then registers, program counter and mapped words are unchanged; and what it then does is
      what it does on any machine that had the missing pages mapped as zeros from the start. */
  lemma FaultTransparency(m: Private, p: Private)
    requires ZeroExtends(m, p) && !PrivateCycle(p).Faults?
    ensures ZeroExtends(m, Settled(m)) && ZeroExtends(Settled(m), p)
    ensures SameOutcome(PrivateCycle(Settled(m)), PrivateCycle(p))
  {
    hide PrivateCycle;
    if PrivateCycle(m).Faults? {
      var va := PrivateCycle(m).vaddr;
      var m1 := Served(m, va);
      FaultingPage(m);
      NeedsPage(m, p);
      ServedExtends(m, va, p);
      if Page(m.pc) in m.pages {
        DataFaultServed(m);
      }
      if PrivateCycle(m1).Faults? {
        var va1 := PrivateCycle(m1).vaddr;
        FaultingPage(m1);
        NeedsPage(m1, p);
        ServedExtends(m1, va1, p);
        DataFaultServed(m1);
      }
    }
    SameWithoutFault(Settled(m), p);
  }

  /** A page that faults on m is mapped on every extension that does not fault. */
  lemma NeedsPage(m: Private, p: Private)
    requires ZeroExtends(m, p) && PrivateCycle(m).Faults? && !PrivateCycle(p).Faults?
    ensures Page(PrivateCycle(m).vaddr) in p.pages
  {
    if Page(m.pc) in m.pages {
      assert WordAt(m.pages, m.pc) == WordAt(p.pages, p.pc);
    }
  }

  /** The fault at vaddr is served: the page is within what the current process may touch, and a
      frame is free. */
  ghost predicate Backed(s: State, vaddr: Word)
    requires Linked(s) && s.mmu in s.procs
  {
    Page(vaddr) < s.procs[s.mmu].numPages && HasFrame(s.vm)
  }

  /** What becomes of the faulting process: when served it has one more zero page and is otherwise
      as it was; when not, it is gone, or, for the idle process, the machine is off. */
  ghost predicate ServedOrEnded(s: State, r: State, vaddr: Word)
    requires Inv(s) && Linked(r)
  {
    if Backed(s, vaddr) then
      && s.mmu in r.procs && r.on == s.on && r.current == s.current && r.order == s.order
      && PrivateOf(r, s.mmu) == Served(PrivateOf(s, s.mmu), vaddr)
    else if s.mmu == s.idle then !r.on
    else s.mmu !in r.procs && r.on == s.on
  }

  lemma ServedFrom(s: State, t: State, r: State, vaddr: Word)
    requires Inv(s) && Inv(t) && Linked(r) && ServedOrEnded(t, r, vaddr)
    requires t.mmu == s.mmu && t.procs == s.procs && t.vm.frames == s.vm.frames
    requires t.current == s.current && t.order == s.order && t.idle == s.idle && t.on == s.on
    requires PrivateOf(t, s.mmu) == PrivateOf(s, s.mmu)
    ensures ServedOrEnded(s, r, vaddr)
  {
    hide Within, Distinct, VmInv, Table, RunsAtMost, PrivateOf;
  }

  /** The kernel serves a fault of the current process, the idle process included, exactly when the
      page is within what the process may touch and a frame is free; the process then has one more
      zero page and is otherwise as it was, ready to repeat the instruction. */
  lemma FaultServed(s: State, time: Word)
    requires Inv(s) && Enabled(s, CpuCycle(time)) && PrivateCycle(PrivateOf(s, s.mmu)).Faults?
    ensures ServedOrEnded(s, Cycle(s, time), PrivateCycle(PrivateOf(s, s.mmu)).vaddr)
  {
    hide Within, Distinct, View, VmInv, Table, RunsAtMost, Touch, Translate, Exception, Perform, PrivatePerform,
      Decode, ServedOrEnded;
    ReadView(s.vm, s.mmu, s.pc, Fetch);
    if Page(s.pc) in View(s.vm, s.mmu) {
      var t, next := Touch(s, s.pc, Fetch), Wrap(s.pc + 1);
      TouchSame(s, s.pc, Fetch);
      TouchFields(s, s.pc, Fetch);
      TouchKeeps(s, s.pc, Fetch);
      TouchFrames(s, s.pc, Fetch);
      assert PrivateOf(t, s.mmu) == PrivateOf(s, s.mmu);
      var e := Execute(Decode(WordAt(View(s.vm, s.mmu), s.pc)), s.gprs, next);
      DataFault(t, e, next, time);
      ServedFrom(s, t, Perform(t, e, next, time), PrivatePerform(PrivateOf(s, s.mmu), e, next).vaddr);
    } else {
      ExceptionServed(s, s.pc);
    }
  }

  lemma TouchFrames(s: State, vaddr: Word, kind: AccessKind)
    requires Linked(s) && s.mmu in s.procs
    ensures var r := Touch(s, vaddr, kind); r == s.(vm := r.vm) && r.vm.frames == s.vm.frames
  {
  }

  lemma ExceptionServed(s: State, vaddr: Word)
    requires Inv(s) && Page(vaddr) !in PrivateOf(s, s.mmu).pages
    ensures var r := Exception(s, true, vaddr);
            ServedOrEnded(s, r, vaddr)
  {
    hide Within, Distinct, View, VmInv, Table, RunsAtMost, DestroyCurrent, DemandPage;
    FirstFreeFinds(s.vm);
    NotPresent(s.vm, s.mmu, Page(vaddr));
    if Servable(s, s.mmu, vaddr) {
      DemandPageView(s.vm, s.mmu, Page(vaddr));
    } else if s.mmu != s.idle {
      DestroyCurrentSame(s);
      DestroyCurrentSteady(s);
    }
  }

  lemma NotPresent(vm: Vm, a: Addr, v: nat)
    requires VmInv(vm) && a in vm.tables && v < PTES && v !in View(vm, a)
    ensures !vm.tables[a][v].present
  {
    var e := vm.tables[a][v];
    if e.present {
      assert Maps(vm, a, v, e.frame);
    }
  }

  lemma DataFault(s: State, e: Effect, next: Word, time: Word)
    requires Inv(s) && PrivatePerform(PrivateOf(s, s.mmu), e, next).Faults?
    ensures var va, r := PrivatePerform(PrivateOf(s, s.mmu), e, next).vaddr, Perform(s, e, next, time);
            ServedOrEnded(s, r, va)
  {
    hide Within, Distinct, View, VmInv, Table, RunsAtMost, Exception, Translate;
    match e
    case ReadWord(addr, dest) =>
      ReadView(s.vm, s.mmu, addr, Read);
      ExceptionServed(s, addr);
    case WriteWord(addr, value) =>
      ReadView(s.vm, s.mmu, addr, Write);
      ExceptionServed(s, addr);
  }
}
