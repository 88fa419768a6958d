/** Memory virtualisation: every process behaves as if alone on a private machine with its own
    registers, program counter and pages. */
module Isolation {
  import opened Options
  import opened Isa
  import opened Paging
  import opened AddressSpaces
  import opened Kernel
  import opened KernelInvariant
  import opened Power

  /** A machine of one process: no frames, no page tables, no other processes. */
  datatype Private = Private(gprs: Regs, pc: Word, pages: map<nat, seq<Word>>, numPages: Word, blocks: seq<Block>)

  ghost predicate PagesOk(pages: map<nat, seq<Word>>) {
    forall v :: v in pages ==> v < PTES && |pages[v]| == PAGE
  }

  // ---------- the private machine ----------

  datatype Outcome =
    | Continues(m: Private)
    | Faults(vaddr: Word)
    | Traps(m: Private)
    | Dies
    | Divides

  function WordAt(pages: map<nat, seq<Word>>, vaddr: Word): Word
    requires PagesOk(pages) && Page(vaddr) in pages
  {
    pages[Page(vaddr)][Offset(vaddr)]
  }

  function PagesWith(pages: map<nat, seq<Word>>, vaddr: Word, w: Word): (r: map<nat, seq<Word>>)
    requires PagesOk(pages) && Page(vaddr) in pages
    ensures PagesOk(r)
  {
    pages[Page(vaddr) := SetWord(pages[Page(vaddr)], Offset(vaddr), w)]
  }

  /** One instruction. */
  function PrivateCycle(m: Private): (o: Outcome)
    requires PagesOk(m.pages)
    ensures o.Continues? || o.Traps? ==> PagesOk(o.m.pages)
  {
    if Page(m.pc) !in m.pages then Faults(m.pc)
    else PrivatePerform(m, Execute(Decode(WordAt(m.pages, m.pc)), m.gprs, Wrap(m.pc + 1)), Wrap(m.pc + 1))
  }

  function PrivatePerform(m: Private, e: Effect, next: Word): (o: Outcome)
    requires PagesOk(m.pages)
    ensures o.Continues? || o.Traps? ==> PagesOk(o.m.pages)
  {
    match e
    case Registers(gprs, pc) => Continues(m.(gprs := gprs, pc := pc))
    case ReadWord(addr, dest) =>
      if Page(addr) !in m.pages then Faults(addr)
      else Continues(m.(gprs := SetReg(m.gprs, dest, WordAt(m.pages, addr)), pc := next))
    case WriteWord(addr, value) =>
      if Page(addr) !in m.pages then Faults(addr)
      else Continues(m.(pages := PagesWith(m.pages, addr, value), pc := next))
    case Trap => Traps(m.(pc := next))
    case BadInstruction => Dies
    case Crash => Divides
  }

  function Served(m: Private, vaddr: Word): Private {
    m.(pages := m.pages[Page(vaddr) := ZEROS])
  }

  function PrivateMalloc(m: Private): Private {
    if m.gprs[1] == 0 then m.(gprs := SetReg(m.gprs, 1, 0))
    else
      var pages, start := PagesNeeded(m.gprs[1]), Wrap(m.numPages * PAGE);
      Private(SetReg(SetReg(m.gprs, 1, 1), 2, start), m.pc, m.pages, Wrap(m.numPages + pages),
              m.blocks + [Block(start, pages)])
  }

  /** Some page of the range is mapped. */
  ghost predicate AnyMapped(pages: map<nat, seq<Word>>, start: nat, n: nat) {
    exists v :: v in pages && start <= v < start + n
  }

  ghost function PrivateFree(m: Private): Private {
    var i, v := FindBlock(m.blocks, m.gprs[1]), Page(m.gprs[1]);
    var found := i < |m.blocks|;
    var n := if found then m.blocks[i].pages else 1;
    Private(SetReg(m.gprs, 1, if AnyMapped(m.pages, v, n) || found then 1 else 0), m.pc,
            Without(m.pages, v, n), m.numPages,
            if found then m.blocks[..i] + m.blocks[i + 1..] else m.blocks)
  }

  /** What a system call does to its own process. */
  ghost function PrivateCall(m: Private, time: Word): Private {
    match m.gprs[0]
    case 4 => PrivateMalloc(m)
    case 5 => PrivateFree(m)
    case 7 => m.(gprs := SetReg(m.gprs, 1, time))
    case _ => m
  }

  /** One cycle of a process that survives it; `time` is the clock device's answer. */
  ghost function Advance(m: Private, time: Word): (r: Private)
    requires PagesOk(m.pages)
    ensures PagesOk(r.pages)
  {
    match PrivateCycle(m)
    case Continues(r) => r
    case Faults(vaddr) => Served(m, vaddr)
    case Traps(r) => PrivateCall(r, time)
    case _ => m
  }

  ghost function PrivateRun(m: Private, times: seq<Word>): (r: Private)
    requires PagesOk(m.pages)
    ensures PagesOk(r.pages)
    decreases |times|
  {
    if times == [] then m else PrivateRun(Advance(m, times[0]), times[1..])
  }

  // ---------- the private machine of a process in the kernel ----------

  ghost function PrivateOf(s: State, a: Addr): (m: Private)
    requires Linked(s) && a in s.procs
    ensures PagesOk(m.pages)
  {
    var p := s.procs[a];
    Private(if s.current == Some(a) then s.gprs else p.gprs, if s.current == Some(a) then s.pc else p.pc,
            View(s.vm, a), p.numPages, p.blocks)
  }

  /** All processes that are in both states have the same private machine. */
  ghost predicate AllSame(s: State, r: State) {
    Linked(s) && Linked(r) && forall a :: a in s.procs && a in r.procs ==> PrivateOf(r, a) == PrivateOf(s, a)
  }

  lemma AllSameTransitive(s: State, t: State, r: State)
    requires AllSame(s, t) && AllSame(t, r) && s.procs.Keys * r.procs.Keys <= t.procs.Keys
    ensures AllSame(s, r)
  {
    hide Within, Distinct, PrivateOf;
    forall a | a in s.procs && a in r.procs ensures PrivateOf(r, a) == PrivateOf(s, a) {
      assert a in t.procs;
    }
  }

  // ---------- context switches ----------

  lemma RestoreSame(s: State, a: Addr)
    requires Linked(s) && a in s.procs
    requires s.current.Some? ==> s.procs[s.current.value].gprs == s.gprs && s.procs[s.current.value].pc == s.pc
    ensures AllSame(s, RestoreContext(s, a)) && RestoreContext(s, a).procs.Keys == s.procs.Keys
  {
    hide Within, Distinct, View;
  }

  lemma DispatchSame(s: State)
    requires Linked(s)
    requires s.current.Some? ==> s.procs[s.current.value].gprs == s.gprs && s.procs[s.current.value].pc == s.pc
    ensures AllSame(s, Dispatch(s)) && Dispatch(s).procs.Keys == s.procs.Keys
  {
    hide Within, Distinct, PrivateOf, RestoreContext;
    var start := CursorIndex(s);
    var d := Search(s.procs, s.order, start, 1);
    if d <= |s.order| {
      var a := At(s.order, start, d);
      CursorSame(s, a);
      RestoreSame(s.(cursor := Some(a)), a);
      AllSameTransitive(s, s.(cursor := Some(a)), Dispatch(s));
    } else {
      CursorSame(s, s.order[start]);
      RestoreSame(s.(cursor := Some(s.order[start])), s.idle);
      AllSameTransitive(s, s.(cursor := Some(s.order[start])), Dispatch(s));
    }
  }

  lemma CursorSame(s: State, a: Addr)
    requires Linked(s) && a in s.procs
    ensures AllSame(s, s.(cursor := Some(a)))
  {
    hide Within, Distinct, View;
  }

  lemma ScheduleSame(s: State)
    requires Linked(s)
    ensures AllSame(s, Schedule(s)) && Schedule(s).procs.Keys == s.procs.Keys
  {
    hide Within, Distinct, PrivateOf, Dispatch, SaveContext;
    SaveSame(s);
    DispatchSame(SaveContext(s));
    AllSameTransitive(s, SaveContext(s), Schedule(s));
  }

  // ---------- destroying and loading ----------

  lemma DestroySame(s: State, a: Addr)
    requires Linked(s) && VmInv(s.vm) && a in s.procs && a != s.idle && s.current != Some(a)
    ensures AllSame(s, Destroy(s, a))
  {
    hide Within, Distinct, View, VmInv, Remove, Destroy;
    RemoveView(s.vm, a);
    DestroyRecords(s, a);
  }

  lemma DestroyCurrentSame(s: State)
    requires Linked(s) && VmInv(s.vm) && s.current.Some? && s.current.value != s.idle
    ensures var r := DestroyCurrent(s); AllSame(s, r) && r.procs.Keys == s.procs.Keys - {s.current.value}
  {
    hide Within, Distinct, View, VmInv, Remove, Schedule, Destroy;
    var c, t := s.current.value, s.(current := None);
    RemoveView(s.vm, c);
    DestroyRecords(t, c);
    var d := Destroy(t, c);
    assert forall a :: a in d.procs ==> PrivateOf(d, a) == PrivateOf(s, a);
    ScheduleSame(d);
    AllSameTransitive(s, d, Schedule(d));
  }

  lemma KillSame(s: State, pid: nat)
    requires Inv(s)
    ensures AllSame(s, Kill(s, pid))
  {
    hide Within, Distinct, View, VmInv, Table, DestroyCurrent, Destroy;
    if pid != 0 {
      var found := FindPid(s.procs, s.order, pid);
      if found.Some? {
        if s.current == found {
          DestroyCurrentSame(s);
        } else {
          DestroySame(s, found.value);
        }
      }
    }
  }

  /** Loading a program leaves all processes alone and starts the new one at address 1 with
      cleared registers and the image in its first pages. */
  lemma LoadSame(s: State, image: seq<Word>, isIdle: bool)
    requires Inv(s) && image != []
    ensures var r := LoadProgram(s, image, isIdle);
            && AllSame(s, r) && r.procs.Keys == s.procs.Keys + {s.nextAddr} && r.current == Some(s.nextAddr)
            && var m := PrivateOf(r, s.nextAddr);
               && m.gprs == [0, 0, 0, 0, 0, 0, 0, 0] && m.pc == 1 && m.blocks == []
               && m.numPages == Wrap(PagesNeeded(|image|))
               && exists loaded: nat ::
                    loaded <= Least(PagesNeeded(|image|), PTES) && ShowsImage(m.pages, image, loaded)
  {
    hide Within, Distinct, PrivateOf, VmInv, Table, RunsAtMost, Create, ShowsImage;
    var a, t := s.nextAddr, Create(s, image, isIdle);
    CreateSame(s, image, isIdle);
    CreateFields(s, image, isIdle);
    CreatePrivate(s, image, isIdle);
    SaveSame(t);
    RestoreSame(SaveContext(t), a);
    AllSameTransitive(t, SaveContext(t), LoadProgram(s, image, isIdle));
    AllSameTransitive(s, t, LoadProgram(s, image, isIdle));
  }

  lemma SaveSame(s: State)
    requires Linked(s)
    ensures var r := SaveContext(s);
            && AllSame(s, r) && r.procs.Keys == s.procs.Keys && r.current == s.current && r.gprs == s.gprs
               && r.pc == s.pc
            && (r.current.Some? ==> r.procs[r.current.value].gprs == r.gprs && r.procs[r.current.value].pc == r.pc)
  {
    hide Within, Distinct, View;
  }

  /** The address spaces after a process is created: all as before, and the image in the new one. */
  lemma CreateViews(s: State, image: seq<Word>, isIdle: bool)
    requires Inv(s)
    ensures var r := Create(s, image, isIdle);
            && (forall b :: b in s.procs ==> View(r.vm, b) == View(s.vm, b))
            && exists loaded: nat ::
                 loaded <= Least(PagesNeeded(|image|), PTES) && ShowsImage(View(r.vm, s.nextAddr), image, loaded)
  {
    hide Within, Distinct, View, VmInv, Table, LoadPages, ShowsImage;
    var a := s.nextAddr;
    var vm := Vm(s.vm.frames, s.vm.mem, s.vm.tables[a := EmptyTable()]);
    AddTable(s.vm, a);
    EmptyImage(image);
    LoadPagesView(vm, a, image, 0, Least(PagesNeeded(|image|), PTES));
  }

  lemma CreateSame(s: State, image: seq<Word>, isIdle: bool)
    requires Inv(s)
    ensures AllSame(s, Create(s, image, isIdle))
  {
    hide Within, Distinct, View, VmInv, Table, RunsAtMost, LoadPages, ShowsImage;
    CreateViews(s, image, isIdle);
    CreateFields(s, image, isIdle);
  }

  lemma CreatePrivate(s: State, image: seq<Word>, isIdle: bool)
    requires Inv(s)
    ensures var m := PrivateOf(Create(s, image, isIdle), s.nextAddr);
            && m.gprs == [0, 0, 0, 0, 0, 0, 0, 0] && m.pc == 1 && m.blocks == []
            && m.numPages == Wrap(PagesNeeded(|image|))
            && exists loaded: nat :: loaded <= Least(PagesNeeded(|image|), PTES) && ShowsImage(m.pages, image, loaded)
  {
    hide Within, Distinct, View, VmInv, Table, RunsAtMost, LoadPages, ShowsImage;
    CreateViews(s, image, isIdle);
  }

  lemma EmptyImage(image: seq<Word>)
    ensures ShowsImage(map[], image, 0)
  {
  }

  // ---------- system calls ----------

  lemma AnyPresentMapped(vm: Vm, a: Addr, start: nat, n: nat)
    requires VmInv(vm) && a in vm.tables
    ensures AnyPresent(vm.tables[a], start, n) <==> AnyMapped(View(vm, a), start, n)
  {
    forall v: nat | v < PTES ensures v in View(vm, a) <==> vm.tables[a][v].present {
      var e := vm.tables[a][v];
      if e.present {
        assert Maps(vm, a, v, e.frame);
      }
    }
    if AnyPresent(vm.tables[a], start, n) {
      var v :| start <= v < start + n && v < PTES && vm.tables[a][v].present;
      assert v in View(vm, a);
    }
    if AnyMapped(View(vm, a), start, n) {
      var v :| v in View(vm, a) && start <= v < start + n;
      assert vm.tables[a][v].present;
    }
  }

  /** What the current process experiences as r, and the others do not notice. */
  ghost predicate OnlyCurrent(s: State, r: State, m: Private) {
    && Linked(s) && Linked(r) && s.current.Some? && s.current.value in s.procs
    && (forall a :: a in s.procs && a in r.procs && a != s.current.value ==> PrivateOf(r, a) == PrivateOf(s, a))
    && (s.current.value in r.procs ==> PrivateOf(r, s.current.value) == m)
  }

  lemma FreeIsolated(s: State)
    requires Inv(s)
    ensures OnlyCurrent(s, Free(s), PrivateFree(PrivateOf(s, s.mmu)))
  {
    hide Within, Distinct, View, VmInv, Table, RunsAtMost, FreePages, AnyPresent, PrivateFree, PrivateOf;
    var p, v := s.procs[s.mmu], s.gprs[1];
    var i := FindBlock(p.blocks, v);
    FreePagesView(s.vm, s.mmu, Page(v), if i < |p.blocks| then p.blocks[i].pages else 1);
    FreePrivate(s);
    ProcsExcept(s, Free(s));
  }

  lemma FreePrivate(s: State)
    requires Inv(s)
    ensures PrivateOf(Free(s), s.mmu) == PrivateFree(PrivateOf(s, s.mmu))
  {
    hide Within, Distinct, View, VmInv, Table, RunsAtMost, FreePages, AnyPresent, AnyMapped;
    var c, p, v := s.mmu, s.procs[s.mmu], s.gprs[1];
    var i := FindBlock(p.blocks, v);
    var n := if i < |p.blocks| then p.blocks[i].pages else 1;
    FreePagesView(s.vm, c, Page(v), n);
    AnyPresentMapped(s.vm, c, Page(v), n);
    AnyMappedPositive(View(s.vm, c), Page(v), n);
  }

  /** A step that keeps the keys, the records other than the current one and the other views. */
  lemma ProcsExcept(s: State, r: State)
    requires Linked(s) && Linked(r) && s.current.Some? && r.current == s.current
             && OthersKeep(s.vm, r.vm, s.current.value)
    requires forall a :: a in s.procs && a in r.procs && a != s.current.value ==> r.procs[a] == s.procs[a]
    ensures OnlyCurrent(s, r, PrivateOf(r, s.current.value))
  {
    hide Within, Distinct, View;
    forall a | a in s.procs && a in r.procs && a != s.current.value ensures PrivateOf(r, a) == PrivateOf(s, a) {
      assert View(r.vm, a) == View(s.vm, a);
    }
  }

  lemma AnyMappedPositive(pages: map<nat, seq<Word>>, start: nat, n: nat)
    ensures AnyMapped(pages, start, n) ==> n > 0
  {
  }

  lemma MallocIsolated(s: State)
    requires Inv(s)
    ensures OnlyCurrent(s, Malloc(s), PrivateMalloc(PrivateOf(s, s.mmu)))
  {
    hide Within, Distinct, View, VmInv, Table, RunsAtMost, PrivateOf, PrivateMalloc;
    MallocPrivate(s);
    ProcsExcept(s, Malloc(s));
  }

  lemma MallocPrivate(s: State)
    requires Inv(s)
    ensures PrivateOf(Malloc(s), s.mmu) == PrivateMalloc(PrivateOf(s, s.mmu))
  {
    hide Within, Distinct, View, VmInv, Table, RunsAtMost;
  }

  lemma SleepSame(s: State)
    requires Inv(s)
    ensures AllSame(s, Sleep(s))
  {
    hide Within, Distinct, PrivateOf, VmInv, Table, RunsAtMost, Schedule;
    var c, p := s.current.value, s.procs[s.current.value];
    if p.id != 0 {
      if s.gprs[1] > 0 {
        var t := s.(procs := s.procs[c := p.(sleep := s.gprs[1], status := Blocked)]);
        RecordSame(s, c, p.(sleep := s.gprs[1], status := Blocked));
        ScheduleSame(t);
        AllSameTransitive(s, t, Schedule(t));
      } else {
        ScheduleSame(s);
      }
    }
  }

  lemma PrintSame(s: State)
    requires Inv(s)
    ensures AllSame(s, PrintString(s))
  {
    hide Within, Distinct, View, VmInv, Table, Kill, WalkString;
    var walk := WalkString(s.vm.tables[s.mmu], s.vm.mem, s.gprs[1], WALK);
    var s1 := s.(out := s.out + walk.text);
    KillSame(s1, s.procs[s.current.value].id);
    assert AllSame(s, s1);
    AllSameTransitive(s, s1, Kill(s1, s.procs[s.current.value].id));
  }

  lemma SameIsOnlyCurrent(s: State, r: State)
    requires AllSame(s, r) && s.current.Some?
    ensures OnlyCurrent(s, r, PrivateOf(s, s.current.value))
  {
  }

  lemma SystemCallIsolated(s: State, time: Word)
    requires Inv(s) && (s.gprs[0] == 0 ==> s.current != Some(s.idle))
    ensures OnlyCurrent(s, SystemCall(s, time), PrivateCall(PrivateOf(s, s.mmu), time))
  {
    hide Within, Distinct, View, VmInv, Table, RunsAtMost, DestroyCurrent, Schedule, Malloc, Free, Sleep, PrintString,
      PrivateFree, PrivateMalloc, Decimal, OnlyCurrent;
    match s.gprs[0]
    case 0 => DestroyCurrentSame(s); SameIsOnlyCurrent(s, DestroyCurrent(s));
    case 1 => PrintSame(s); SameIsOnlyCurrent(s, PrintString(s));
    case 4 => MallocIsolated(s);
    case 5 => FreeIsolated(s);
    case 6 => SleepSame(s); SameIsOnlyCurrent(s, Sleep(s));
    case 2 => ProcsExcept(s, SystemCall(s, time));
    case 3 => ProcsExcept(s, SystemCall(s, time));
    case 7 => ProcsExcept(s, SystemCall(s, time));
    case _ => SameIsOnlyCurrent(s, s);
  }

  // ---------- processor cycles ----------

  lemma TouchSame(s: State, vaddr: Word, kind: AccessKind)
    requires Inv(s)
    ensures AllSame(s, Touch(s, vaddr, kind)) && Touch(s, vaddr, kind).procs == s.procs
  {
    hide Within, Distinct, View, VmInv, Table;
    MarkView(s.vm, s.mmu, vaddr, kind);
  }

  /** A page fault that the process survives gives it one zero page. */
  lemma FaultIsolated(s: State, vaddr: Word)
    requires Inv(s) && Page(vaddr) !in View(s.vm, s.mmu)
    ensures var r := Exception(s, true, vaddr);
            r.on ==> OnlyCurrent(s, r, Served(PrivateOf(s, s.mmu), vaddr))
  {
    hide Within, Distinct, View, VmInv, Table, DestroyCurrent, DemandPage;
    var c := s.mmu;
    if Servable(s, c, vaddr) {
      DemandPageView(s.vm, c, Page(vaddr));
    } else if c != s.idle {
      DestroyCurrentSame(s);
    }
  }

  /** A fatal exception leaves the other processes alone; the current one is gone. */
  lemma DeathIsolated(s: State, vaddr: Word, m: Private)
    requires Inv(s)
    ensures var r := Exception(s, false, vaddr);
            r.on ==> OnlyCurrent(s, r, m)
  {
    hide Within, Distinct, View, VmInv, Table, DestroyCurrent;
    if s.mmu != s.idle {
      DestroyCurrentSame(s);
    }
  }

  lemma OnlyCurrentTrans(s: State, t: State, r: State, m: Private)
    requires AllSame(s, t) && t.procs == s.procs && t.current == s.current && OnlyCurrent(t, r, m)
    ensures OnlyCurrent(s, r, m)
  {
    hide Within, Distinct, PrivateOf;
  }

  /** The private machine's outcome of an effect, as far as the process survives it. */
  ghost function After(o: Outcome, m: Private, time: Word): Private {
    match o
    case Continues(r) => r
    case Faults(vaddr) => Served(m, vaddr)
    case Traps(r) => PrivateCall(r, time)
    case _ => m
  }

  lemma ReadIsolated(s: State, addr: Word, dest: Reg, next: Word, time: Word)
    requires Inv(s)
    ensures var r, m := Perform(s, ReadWord(addr, dest), next, time), PrivateOf(s, s.mmu);
            r.on ==> OnlyCurrent(s, r, After(PrivatePerform(m, ReadWord(addr, dest), next), m, time))
  {
    hide Within, Distinct, View, VmInv, Table, Exception, Translate, RunsAtMost;
    ReadView(s.vm, s.mmu, addr, Read);
    if Page(addr) in View(s.vm, s.mmu) {
      TouchSame(s, addr, Read);
    } else {
      FaultIsolated(s, addr);
    }
  }

  lemma StoreIsolated(s: State, addr: Word, value: Word, next: Word)
    requires Inv(s) && Page(addr) in View(s.vm, s.mmu) && Translate(s.vm.tables[s.mmu], addr, Write).Granted?
    ensures var m := PrivateOf(s, s.mmu);
            OnlyCurrent(s, s.(vm := StoreAt(s.vm, s.mmu, addr, value), pc := next),
                        m.(pages := PagesWith(m.pages, addr, value), pc := next))
  {
    hide Within, Distinct, View, VmInv, Table, StoreAt, Translate, RunsAtMost;
    StoreView(s.vm, s.mmu, addr, value);
    StoreKeys(s.vm, s.mmu, addr, value);
  }

  lemma WriteIsolated(s: State, addr: Word, value: Word, next: Word, time: Word)
    requires Inv(s)
    ensures var r, m := Perform(s, WriteWord(addr, value), next, time), PrivateOf(s, s.mmu);
            r.on ==> OnlyCurrent(s, r, After(PrivatePerform(m, WriteWord(addr, value), next), m, time))
  {
    hide Within, Distinct, View, VmInv, Table, Exception, Translate, StoreAt, RunsAtMost, Touch, OnlyCurrent;
    ReadView(s.vm, s.mmu, addr, Write);
    if Page(addr) in View(s.vm, s.mmu) {
      var t := Touch(s, addr, Write);
      TouchSame(s, addr, Write);
      TouchFields(s, addr, Write);
      TouchKeeps(s, addr, Write);
      TouchTranslate(s, addr, Write);
      assert PrivateOf(t, s.mmu) == PrivateOf(s, s.mmu);
      StoreIsolated(t, addr, value, next);
      OnlyCurrentTrans(s, t, Perform(s, WriteWord(addr, value), next, time),
        After(PrivatePerform(PrivateOf(s, s.mmu), WriteWord(addr, value), next), PrivateOf(s, s.mmu), time));
    } else {
      FaultIsolated(s, addr);
    }
  }

  lemma TouchTranslate(s: State, vaddr: Word, kind: AccessKind)
    requires Linked(s) && s.mmu in s.procs
    ensures Translate(Touch(s, vaddr, kind).vm.tables[s.mmu], vaddr, kind) == Translate(s.vm.tables[s.mmu], vaddr, kind)
  {
  }

  lemma TrapIsolated(s: State, next: Word, time: Word)
    requires Inv(s) && (s.gprs[0] == 0 ==> s.current != Some(s.idle))
    ensures OnlyCurrent(s, Perform(s, Trap, next, time), PrivateCall(PrivateOf(s, s.mmu).(pc := next), time))
  {
    hide Within, Distinct, View, VmInv, Table, SystemCall, PrivateCall, RunsAtMost;
    SystemCallIsolated(s.(pc := next), time);
    assert PrivateOf(s.(pc := next), s.mmu) == PrivateOf(s, s.mmu).(pc := next);
  }

  lemma PerformIsolated(s: State, e: Effect, next: Word, time: Word)
    requires Inv(s) && (e.Trap? && s.gprs[0] == 0 ==> s.current != Some(s.idle)) && e != Crash
    ensures var r, m := Perform(s, e, next, time), PrivateOf(s, s.mmu);
            r.on ==> OnlyCurrent(s, r, After(PrivatePerform(m, e, next), m, time))
  {
    match e
    case ReadWord(addr, dest) => ReadIsolated(s, addr, dest, next, time);
    case WriteWord(addr, value) => WriteIsolated(s, addr, value, next, time);
    case Trap => TrapIsolated(s, next, time);
    case BadInstruction => DeathIsolated(s, s.pc, PrivateOf(s, s.mmu));
    case Registers(gprs, pc) => RegistersIsolated(s, gprs, pc);
  }

  lemma RegistersIsolated(s: State, gprs: Regs, pc: Word)
    requires Inv(s)
    ensures OnlyCurrent(s, s.(gprs := gprs, pc := pc), PrivateOf(s, s.mmu).(gprs := gprs, pc := pc))
  {
    hide Within, Distinct, View, VmInv, Table;
  }

  lemma CycleIsolated(s: State, time: Word)
    requires Inv(s) && Enabled(s, CpuCycle(time))
    ensures Cycle(s, time).on ==> OnlyCurrent(s, Cycle(s, time), Advance(PrivateOf(s, s.mmu), time))
  {
    hide Within, Distinct, View, VmInv, Table, RunsAtMost, Exception, Touch, Perform, Decode, Translate, OnlyCurrent,
      PrivatePerform;
    ReadView(s.vm, s.mmu, s.pc, Fetch);
    if Page(s.pc) in View(s.vm, s.mmu) {
      var t, next := Touch(s, s.pc, Fetch), Wrap(s.pc + 1);
      TouchSame(s, s.pc, Fetch);
      TouchFields(s, s.pc, Fetch);
      TouchKeeps(s, s.pc, Fetch);
      assert PrivateOf(t, s.mmu) == PrivateOf(s, s.mmu);
      var e := Execute(Decode(WordAt(View(s.vm, s.mmu), s.pc)), s.gprs, next);
      CrashIndependent(Fetched(s).value, s.gprs, next, 0);
      PerformIsolated(t, e, next, time);
      if Cycle(s, time).on {
        OnlyCurrentTrans(s, t, Cycle(s, time), Advance(PrivateOf(s, s.mmu), time));
      }
    } else {
      FaultIsolated(s, s.pc);
    }
  }

  // ---------- events and runs ----------

  lemma TickSame(s: State)
    requires Linked(s)
    ensures AllSame(s, s.(procs := TickAll(s.procs)))
  {
    hide Within, Distinct, View, PagesOk;
    var r := s.(procs := TickAll(s.procs));
    assert Linked(r);
    forall a | a in s.procs ensures PrivateOf(r, a) == PrivateOf(s, a) {
      assert r.procs[a] == Tick(s.procs[a]);
    }
  }

  /** A change of scheduling fields of one record. */
  lemma RecordSame(s: State, a: Addr, p: Proc)
    requires Linked(s) && a in s.procs
    requires p.gprs == s.procs[a].gprs && p.pc == s.procs[a].pc && p.numPages == s.procs[a].numPages
             && p.blocks == s.procs[a].blocks
    ensures AllSame(s, s.(procs := s.procs[a := p]))
  {
    hide Within, Distinct, View;
  }

  lemma TimerSame(s: State)
    requires Inv(s)
    ensures AllSame(s, Timer(s))
  {
    hide Within, Distinct, PrivateOf, Preempt;
    var t := s.(procs := TickAll(s.procs));
    TickSame(s);
    PreemptSame(t);
    AllSameTransitive(s, t, Timer(s));
  }

  lemma PreemptSame(s: State)
    requires Linked(s)
    ensures AllSame(s, Preempt(s)) && Preempt(s).procs.Keys == s.procs.Keys
  {
    hide Within, Distinct, PrivateOf, Schedule;
    if s.current.Some? && s.procs[s.current.value].id != 0 && s.procs[s.current.value].status == Running {
      var c, p := s.current.value, s.procs[s.current.value];
      if p.quantum + 1 >= QUANTUM {
        var u := s.(procs := s.procs[c := p.(quantum := 0, status := Ready)]);
        RecordSame(s, c, p.(quantum := 0, status := Ready));
        ScheduleSame(u);
        AllSameTransitive(s, u, Schedule(u));
      } else {
        RecordSame(s, c, p.(quantum := p.quantum + 1));
      }
    } else {
      ScheduleSame(s);
    }
  }

  /** A machine that is switched off still holds every process as it was. */
  lemma OffSame(s: State)
    requires Linked(s)
    ensures AllSame(s, s.(on := false))
  {
    hide Within, Distinct, View;
  }

  lemma CycleOffSame(s: State, time: Word)
    requires Inv(s) && Enabled(s, CpuCycle(time)) && !Cycle(s, time).on
    ensures AllSame(s, Cycle(s, time))
  {
    hide Within, Distinct, Cycle, Touch, PrivateOf, VmInv, Table, RunsAtMost, Fetched;
    CycleOff(s, time);
    OffSame(s);
    TouchSame(s, s.pc, Fetch);
    OffSame(Touch(s, s.pc, Fetch));
    AllSameTransitive(s, Touch(s, s.pc, Fetch), Touch(s, s.pc, Fetch).(on := false));
  }

  /** The event is a cycle of process a that does not end with the machine switched off. */
  ghost predicate OwnCycle(s: State, e: Event, a: Addr)
    requires Enabled(s, e)
  {
    e.CpuCycle? && a == s.mmu && Step(s, e).on
  }

  /** What one event does to the private machine of a process that survives it: a cycle of its own
      advances it, anything else leaves it as it is. */
  lemma StepIsolated(s: State, e: Event, a: Addr)
    requires Inv(s) && Enabled(s, e) && a in s.procs && a in Step(s, e).procs
    ensures PrivateOf(Step(s, e), a) == if OwnCycle(s, e, a) then Advance(PrivateOf(s, a), e.time) else PrivateOf(s, a)
  {
    hide Within, Distinct, View, VmInv, Table, RunsAtMost, Timer, Cycle, LoadProgram, Kill, Advance;
    match e
    case TimerInterrupt => TimerSame(s);
    case CpuCycle(time) =>
      if Cycle(s, time).on {
        CycleIsolated(s, time);
      } else {
        CycleOffSame(s, time);
      }
    case LoadCommand(image, isIdle) =>
      if image == [] {
        EmptyLoad(s, isIdle);
      } else {
        LoadSame(s, image, isIdle);
      }
    case KillCommand(pid) => KillSame(s, pid);
    case QuitCommand => OffSame(s);
    case OtherInput =>
  }

  lemma EmptyLoad(s: State, isIdle: bool)
    requires Linked(s) && s.nextAddr !in s.procs
    ensures LoadProgram(s, [], isIdle) == s
  {
  }

  /** The clock values that process a's own cycles read during a run. */
  ghost function OwnTimes(s: State, es: seq<Event>, a: Addr): seq<Word>
    requires Possible(s, es)
    decreases |es|
  {
    if es == [] then []
    else (if OwnCycle(s, es[0], a) then [es[0].time] else []) + OwnTimes(Step(s, es[0]), es[1..], a)
  }

  /** Addresses of dead processes are not used again. */
  lemma StepAddresses(s: State, e: Event)
    requires Inv(s) && Enabled(s, e)
    ensures Step(s, e).nextAddr >= s.nextAddr
    ensures forall a :: a in Step(s, e).procs && a < s.nextAddr ==> a in s.procs
  {
    hide VmInv, Table, RunsAtMost, View, Timer, Cycle, Kill, Create, SaveContext, RestoreContext, Distinct;
    match e
    case LoadCommand(image, isIdle) =>
      if image != [] {
        CreateFields(s, image, isIdle);
      }
    case _ =>
  }

  lemma RunSurvivor(s: State, es: seq<Event>, a: Addr)
    requires Inv(s) && Possible(s, es) && a < s.nextAddr && a in Run(s, es).procs
    ensures a in s.procs
    decreases |es|
  {
    hide Within, Distinct, Inv, Step;
    if es != [] {
      StepKeeps(s, es[0]);
      StepAddresses(s, es[0]);
      RunSurvivor(Step(s, es[0]), es[1..], a);
    }
  }

  /** The main result: over any run, a process that is still alive is exactly where its private
      machine would be after its own cycles alone. */
  lemma {:induction false} RunIsolated(s: State, es: seq<Event>, a: Addr)
    requires Inv(s) && Possible(s, es) && a in s.procs && a in Run(s, es).procs
    ensures PrivateOf(Run(s, es), a) == PrivateRun(PrivateOf(s, a), OwnTimes(s, es, a))
    decreases |es|
  {
    hide Within, Distinct, PrivateOf, Advance, Step, Inv, Run, Possible, OwnTimes, PrivateRun;
    InvLinked(s);
    RunUnfold(s, es, a);
    if es != [] {
      var t := Step(s, es[0]);
      StepKeeps(s, es[0]);
      StepAddresses(s, es[0]);
      RunSurvivor(t, es[1..], a);
      StepIsolated(s, es[0], a);
      RunIsolated(t, es[1..], a);
      var rest := OwnTimes(t, es[1..], a);
      if OwnCycle(s, es[0], a) {
        RunTimes(PrivateOf(s, a), es[0].time, rest);
      } else {
        assert [] + rest == rest;
      }
    } else {
      NoTimes(PrivateOf(s, a));
    }
  }

  lemma InvLinked(s: State)
    requires Inv(s)
    ensures Linked(s) && forall a :: a in s.procs ==> a < s.nextAddr
  {
  }

  lemma NoTimes(m: Private)
    requires PagesOk(m.pages)
    ensures PrivateRun(m, []) == m
  {
  }

  lemma RunTimes(m: Private, time: Word, rest: seq<Word>)
    requires PagesOk(m.pages)
    ensures PrivateRun(m, [time] + rest) == PrivateRun(Advance(m, time), rest)
  {
    hide Advance;
    assert ([time] + rest)[1..] == rest;
  }

  lemma RunUnfold(s: State, es: seq<Event>, a: Addr)
    requires Possible(s, es) && Linked(s)
    ensures es == [] ==> Run(s, es) == s && OwnTimes(s, es, a) == []
    ensures es != [] ==>
              && Enabled(s, es[0]) && Possible(Step(s, es[0]), es[1..])
              && Run(s, es) == Run(Step(s, es[0]), es[1..])
              && OwnTimes(s, es, a) == (if OwnCycle(s, es[0], a) then [es[0].time] else [])
                 + OwnTimes(Step(s, es[0]), es[1..], a)
  {
    hide Within, Linked, Enabled, Step;
  }
}
