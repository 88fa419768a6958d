/** The kernel as a state machine: the whole state of machine and operating system, and what
    each system call, interrupt and processor cycle does to it. */
module Kernel {
  import opened Options
  import opened Isa
  import opened Paging
  import opened AddressSpaces

  datatype Status = Ready | Running | Blocked

  datatype Block = Block(start: Word, pages: nat)

  /** A process record; its page table is kept in the paging state under the same address. */
  datatype Proc = Proc(id: nat, pc: Word, status: Status, gprs: Regs, numPages: Word, sleep: nat,
                       quantum: nat, blocks: seq<Block>)

  /** `order` is the process table, `cursor` the round-robin position in it (None is its end),
      `mmu` the process whose page table the processor uses, `out` what the application
      terminal has received. */
  datatype State = State(
    vm: Vm, procs: map<Addr, Proc>, order: seq<Addr>,
    current: Option<Addr>, idle: Addr, cursor: Option<Addr>,
    mmu: Addr, gprs: Regs, pc: Word,
    nextPid: nat, nextAddr: Addr, on: bool, out: seq<Word>)

  const QUANTUM := 5

  ghost predicate Distinct(s: seq<Addr>) {
    forall i, j :: 0 <= i < j < |s| ==> s[i] != s[j]
  }

  /** The references between the parts of the state lead to live processes. */
  ghost predicate Linked(s: State) {
    && s.vm.tables.Keys == s.procs.Keys
    && (forall a :: a in s.order <==> a in s.procs)
    && Distinct(s.order)
    && s.idle in s.procs
    && (s.cursor.Some? ==> s.cursor.value in s.procs)
    && (s.current.Some? ==> s.current.value in s.procs)
    && (forall a :: a in s.procs ==> a < s.nextAddr)
  }

  /** No process has been created on the way from s to r. */
  ghost predicate Within(s: State, r: State) {
    r.nextAddr == s.nextAddr && r.nextPid == s.nextPid && r.procs.Keys <= s.procs.Keys && r.idle == s.idle
  }

  // ---------- context switch and scheduling ----------

  function SaveContext(s: State): (r: State)
    requires Linked(s)
    ensures Linked(r) && Within(s, r) && r.procs.Keys == s.procs.Keys
  {
    if s.current.None? then s
    else
      var p := s.procs[s.current.value];
      var saved := p.(pc := s.pc, gprs := s.gprs, status := if p.status == Running then Ready else p.status);
      s.(procs := s.procs[s.current.value := saved])
  }

  function RestoreContext(s: State, a: Addr): (r: State)
    requires Linked(s) && a in s.procs
    ensures Linked(r) && Within(s, r) && r.procs.Keys == s.procs.Keys
  {
    var p := s.procs[a];
    s.(current := Some(a), procs := s.procs[a := p.(status := Running)], mmu := a, gprs := p.gprs, pc := p.pc)
  }

  function IndexOf(order: seq<Addr>, a: Addr): (i: nat)
    requires a in order
    ensures i < |order| && order[i] == a && a !in order[..i]
  {
    if order[0] == a then 0 else 1 + IndexOf(order[1..], a)
  }

  function Eligible(p: Proc): bool {
    p.id != 0 && (p.status == Ready || p.status == Running)
  }

  /** The process d places after position `start`, cyclically. */
  function At(order: seq<Addr>, start: nat, d: nat): (a: Addr)
    requires order != []
    ensures a in order
  {
    order[(start + d) % |order|]
  }

  /** The least distance in d .. |order| at which an eligible process stands, or |order| + 1. */
  function Search(procs: map<Addr, Proc>, order: seq<Addr>, start: nat, d: nat): (r: nat)
    requires order != [] && (forall a :: a in order ==> a in procs) && d <= |order| + 1
    ensures d <= r <= |order| + 1
    ensures r <= |order| ==> Eligible(procs[At(order, start, r)])
    ensures forall e :: d <= e < r ==> !Eligible(procs[At(order, start, e)])
    decreases |order| + 1 - d
  {
    if d > |order| || Eligible(procs[At(order, start, d)]) then d else Search(procs, order, start, d + 1)
  }

  function CursorIndex(s: State): (i: nat)
    requires Linked(s)
    ensures i < |s.order| && (s.cursor.None? ==> i == 0) && (s.cursor.Some? ==> s.cursor == Some(s.order[i]))
  {
    assert s.idle in s.order;
    if s.cursor.None? then 0 else IndexOf(s.order, s.cursor.value)
  }

  /** Round robin: the next eligible process after the cursor, or the idle process. */
  function Schedule(s: State): (r: State)
    requires Linked(s)
    ensures Linked(r) && Within(s, r) && r.procs.Keys == s.procs.Keys
  {
    Dispatch(SaveContext(s))
  }

  function Dispatch(s: State): (r: State)
    requires Linked(s)
    ensures Linked(r) && Within(s, r) && r.procs.Keys == s.procs.Keys
  {
    assert s.idle in s.order;
    var start := CursorIndex(s);
    var d := Search(s.procs, s.order, start, 1);
    if d <= |s.order| then
      var a := At(s.order, start, d);
      RestoreContext(s.(cursor := Some(a)), a)
    else RestoreContext(s.(cursor := Some(s.order[start])), s.idle)
  }

  // ---------- creating and destroying processes ----------

  function Erased(order: seq<Addr>, a: Addr): (r: seq<Addr>)
    requires a in order
    ensures |r| == |order| - 1
  {
    order[..IndexOf(order, a)] + order[IndexOf(order, a) + 1..]
  }

  /** Where an iterator at a stands after a is erased. */
  function Successor(order: seq<Addr>, a: Addr): Option<Addr>
    requires a in order
  {
    if IndexOf(order, a) + 1 < |order| then Some(order[IndexOf(order, a) + 1]) else None
  }

  lemma ErasedElements(order: seq<Addr>, a: Addr)
    requires a in order && Distinct(order)
    ensures Distinct(Erased(order, a))
    ensures forall b :: b in Erased(order, a) <==> b in order && b != a
    ensures Successor(order, a).Some? ==> Successor(order, a).value in order && Successor(order, a).value != a
  {
    var i, r := IndexOf(order, a), Erased(order, a);
    forall b | b in order && b != a ensures b in r {
      var j :| 0 <= j < |order| && order[j] == b;
      assert r[if j < i then j else j - 1] == b;
    }
  }

  function Destroy(s: State, a: Addr): (r: State)
    requires Linked(s) && a in s.procs && a != s.idle && s.current != Some(a)
    ensures Linked(r) && Within(s, r)
  {
    hide Remove, Distinct, Erased, Successor;
    ErasedElements(s.order, a);
    State(Remove(s.vm, a), s.procs - {a}, Erased(s.order, a), s.current, s.idle,
          if s.cursor == Some(a) then Successor(s.order, a) else s.cursor,
          s.mmu, s.gprs, s.pc, s.nextPid, s.nextAddr, s.on, s.out)
  }

  function DestroyCurrent(s: State): (r: State)
    requires Linked(s) && s.current.Some? && s.current.value != s.idle
    ensures Linked(r) && Within(s, r)
  {
    Schedule(Destroy(s.(current := None), s.current.value))
  }

  function NewProc(pid: nat, image: seq<Word>): Proc {
    Proc(pid, 1, Ready, [0, 0, 0, 0, 0, 0, 0, 0], Wrap(PagesNeeded(|image|)), 0, 0, [])
  }

  function Least(a: nat, b: nat): nat {
    if a < b then a else b
  }

  /** The record and address space of a new process, not yet running. */
  function Create(s: State, image: seq<Word>, isIdle: bool): (r: State)
    requires Linked(s) && s.nextAddr !in s.procs
    ensures Linked(r)
  {
    var a, pid := s.nextAddr, if isIdle then s.nextPid else s.nextPid + 1;
    assert LoadPages(Vm(s.vm.frames, s.vm.mem, s.vm.tables[a := EmptyTable()]), a, image, 0,
      Least(PagesNeeded(|image|), PTES)).tables.Keys
        == s.vm.tables.Keys + {a} by {
      LoadPagesKeys(Vm(s.vm.frames, s.vm.mem, s.vm.tables[a := EmptyTable()]), a, image, 0,
        Least(PagesNeeded(|image|), PTES));
    }
    State(LoadPages(Vm(s.vm.frames, s.vm.mem, s.vm.tables[a := EmptyTable()]), a, image, 0,
      Least(PagesNeeded(|image|), PTES)),
          s.procs[a := NewProc(if isIdle then 0 else pid, image)], s.order + [a], s.current, s.idle, s.cursor,
          a, s.gprs, s.pc, pid, a + 1, s.on, s.out)
  }

  lemma {:induction false} LoadPagesKeys(vm: Vm, a: Addr, image: seq<Word>, p: nat, pages: nat)
    requires a in vm.tables && pages <= PTES
    ensures LoadPages(vm, a, image, p, pages).tables.Keys == vm.tables.Keys
    decreases pages - p
  {
    var f := FirstFree(vm.frames, 2);
    if p < pages && f < FRAMES {
      LoadPagesKeys(PlaceFilled(vm, a, p, f, ImagePage(image, p, FrameWords(vm.mem, f))), a, image, p + 1, pages);
    }
  }

  /** The shell's load command: an empty or unreadable file does nothing. */
  function LoadProgram(s: State, image: seq<Word>, isIdle: bool): (r: State)
    requires Linked(s) && s.nextAddr !in s.procs
    ensures Linked(r)
  {
    if image == [] then s
    else RestoreContext(SaveContext(Create(s, image, isIdle)), s.nextAddr)
  }

  /** The first process of the table with this identifier. */
  function FindPid(procs: map<Addr, Proc>, order: seq<Addr>, pid: nat): (r: Option<Addr>)
    requires forall a :: a in order ==> a in procs
    ensures r.Some? ==> r.value in order && procs[r.value].id == pid
    ensures r.None? ==> forall a :: a in order ==> procs[a].id != pid
  {
    if order == [] then None
    else if procs[order[0]].id == pid then Some(order[0])
    else FindPid(procs, order[1..], pid)
  }

  /** The shell's kill command. */
  function Kill(s: State, pid: nat): (r: State)
    requires Linked(s) && s.procs[s.idle].id == 0
    ensures Linked(r) && Within(s, r)
  {
    if pid == 0 then s
    else
      match FindPid(s.procs, s.order, pid)
      case None => s
      case Some(a) => if s.current == Some(a) then DestroyCurrent(s) else Destroy(s, a)
  }

  // ---------- timer ----------

  /** One tick of every sleeping process. */
  function Tick(p: Proc): Proc {
    if p.status == Blocked && p.sleep > 0 then
      if p.sleep == 1 then p.(sleep := 0, status := Ready) else p.(sleep := p.sleep - 1)
    else p
  }

  function TickAll(procs: map<Addr, Proc>): (r: map<Addr, Proc>)
    ensures r.Keys == procs.Keys && forall a :: a in procs ==> r[a] == Tick(procs[a])
  {
    map a | a in procs :: Tick(procs[a])
  }

  function Timer(s: State): (r: State)
    requires Linked(s)
    ensures Linked(r) && Within(s, r) && r.procs.Keys == s.procs.Keys
  {
    Preempt(s.(procs := TickAll(s.procs)))
  }

  /** The quantum of a running user process; any other process is rescheduled at once. */
  function Preempt(s: State): (r: State)
    requires Linked(s)
    ensures Linked(r) && Within(s, r) && r.procs.Keys == s.procs.Keys
  {
    if s.current.Some? && s.procs[s.current.value].id != 0 && s.procs[s.current.value].status == Running then
      var c, p := s.current.value, s.procs[s.current.value];
      if p.quantum + 1 >= QUANTUM then Schedule(s.(procs := s.procs[c := p.(quantum := 0, status := Ready)]))
      else s.(procs := s.procs[c := p.(quantum := p.quantum + 1)])
    else Schedule(s)
  }

  // ---------- system calls ----------

  function SetReg(gprs: Regs, r: nat, w: Word): Regs
    requires r < 8
  {
    gprs[r := w]
  }

  function Malloc(s: State): (r: State)
    requires Linked(s)
    ensures Linked(r) && Within(s, r)
  {
    if s.gprs[1] == 0 || s.current.None? then s.(gprs := SetReg(s.gprs, 1, 0))
    else
      var c, p := s.current.value, s.procs[s.current.value];
      var pages, start := PagesNeeded(s.gprs[1]), Wrap(p.numPages * PAGE);
      s.(procs := s.procs[c := p.(numPages := Wrap(p.numPages + pages), blocks := p.blocks + [Block(start, pages)])],
         gprs := SetReg(SetReg(s.gprs, 1, 1), 2, start))
  }

  /** The position of the first block that starts at vaddr, or |blocks|. */
  function FindBlock(blocks: seq<Block>, vaddr: Word): (i: nat)
    ensures i <= |blocks| && (i < |blocks| ==> blocks[i].start == vaddr)
    ensures forall j :: 0 <= j < i ==> blocks[j].start != vaddr
  {
    if blocks == [] || blocks[0].start == vaddr then 0 else 1 + FindBlock(blocks[1..], vaddr)
  }

  function Free(s: State): (r: State)
    requires Linked(s)
    ensures Linked(r) && Within(s, r)
  {
    if s.current.None? then s.(gprs := SetReg(s.gprs, 1, 0))
    else
      var c, p, v := s.current.value, s.procs[s.current.value], s.gprs[1];
      var i := FindBlock(p.blocks, v);
      var found := i < |p.blocks|;
      var n := if found then p.blocks[i].pages else 1;
      var any := n > 0 && AnyPresent(s.vm.tables[c], Page(v), n);
      FreePagesKeys(s.vm, c, Page(v), n);
      s.(vm := FreePages(s.vm, c, Page(v), n),
         procs := if found then s.procs[c := p.(blocks := p.blocks[..i] + p.blocks[i + 1..])] else s.procs,
         gprs := SetReg(s.gprs, 1, if any || found then 1 else 0))
  }

  lemma {:induction false} FreePagesKeys(vm: Vm, a: Addr, start: nat, n: nat)
    requires a in vm.tables
    ensures FreePages(vm, a, start, n).tables.Keys == vm.tables.Keys
    decreases n
  {
    if n > 0 {
      FreePagesKeys(vm, a, start, n - 1);
    }
  }

  function Sleep(s: State): (r: State)
    requires Linked(s)
    ensures Linked(r) && Within(s, r)
  {
    if s.current.Some? && s.procs[s.current.value].id != 0 then
      var c, p := s.current.value, s.procs[s.current.value];
      Schedule(if s.gprs[1] > 0 then s.(procs := s.procs[c := p.(sleep := s.gprs[1], status := Blocked)]) else s)
    else s
  }

  /** A byte as the terminal receives it: a signed char widened to 16 bits. */
  function TermChar(b: nat): Word
    requires b < 256
  {
    if b < 128 then b else 0xFF00 + b
  }

  datatype WalkEnd = Terminated | BadAddress | Unfinished

  datatype Walk = Walk(text: seq<Word>, end: WalkEnd)

  /** The string printer: at most n words from vaddr on, two characters a word, up to a zero word or
      a word whose low byte is zero, or up to an absent page. */
  function WalkString(t: PageTable, mem: Memory, vaddr: Word, n: nat): Walk
    decreases n
  {
    if n == 0 then Walk([], Unfinished)
    else if !t[Page(vaddr)].present || t[Page(vaddr)].frame >= FRAMES then Walk([], BadAddress)
    else
      var w := mem[t[Page(vaddr)].frame * PAGE + Offset(vaddr)];
      if w % 256 == 0 then Walk([], Terminated)
      else
        var rest := WalkString(t, mem, Wrap(vaddr + 1), n - 1);
        Walk(WordText(w) + rest.text, rest.end)
  }

  function WordText(w: Word): seq<Word>
  {
    [TermChar(w % 256)] + if w / 256 == 0 then [] else [TermChar(w / 256)]
  }

  /** One pass over the whole address space is enough for every walk that ends. */
  const WALK := 0x1_0000

  function PrintString(s: State): (r: State)
    requires Linked(s) && s.mmu in s.procs && s.procs[s.idle].id == 0
    ensures Linked(r) && Within(s, r)
  {
    var walk := WalkString(s.vm.tables[s.mmu], s.vm.mem, s.gprs[1], WALK);
    var s1 := s.(out := s.out + walk.text);
    if walk.end == BadAddress && s.current.Some? && s.procs[s.current.value].id != 0
    then Kill(s1, s.procs[s.current.value].id) else s1
  }

  function Decimal(n: nat): (d: seq<Word>)
    ensures |d| >= 1
  {
    if n < 10 then [48 + n] else Decimal(n / 10) + [48 + n % 10]
  }

  function Exit(s: State): (r: State)
    requires Linked(s) && s.current != Some(s.idle)
    ensures Linked(r) && Within(s, r)
  {
    if s.current.Some? then DestroyCurrent(s) else Schedule(s)
  }

  /** The system call whose number is in register 0; `time` is what the clock device returns. */
  function SystemCall(s: State, time: Word): (r: State)
    requires Linked(s) && s.mmu in s.procs && s.procs[s.idle].id == 0
    requires s.gprs[0] == 0 ==> s.current != Some(s.idle)
    ensures Linked(r) && Within(s, r)
  {
    match s.gprs[0]
    case 0 => Exit(s)
    case 1 => PrintString(s)
    case 2 => s.(out := s.out + [10])
    case 3 => s.(out := s.out + Decimal(s.gprs[1]))
    case 4 => Malloc(s)
    case 5 => Free(s)
    case 6 => Sleep(s)
    case 7 => s.(gprs := SetReg(s.gprs, 1, time))
    case _ => s
  }

  // ---------- processor cycle ----------

  /** Whether a page fault of process a at vaddr is served by a fresh frame. */
  function Servable(s: State, a: Addr, vaddr: Word): bool
    requires Linked(s) && a in s.procs
  {
    Page(vaddr) < s.procs[a].numPages && !s.vm.tables[a][Page(vaddr)].present && FirstFree(s.vm.frames, 2) < FRAMES
  }

  function Exception(s: State, pageFault: bool, vaddr: Word): (r: State)
    requires Linked(s)
    ensures Linked(r) && Within(s, r)
  {
    if pageFault && s.current.Some? && Servable(s, s.current.value, vaddr)
    then s.(vm := DemandPage(s.vm, s.current.value, Page(vaddr)))
    else if s.current.None? || s.current.value == s.idle then s.(on := false)
    else DestroyCurrent(s)
  }

  function Touch(s: State, vaddr: Word, kind: AccessKind): (r: State)
    requires Linked(s) && s.mmu in s.procs
    ensures Linked(r) && Within(s, r)
  {
    s.(vm := Vm(s.vm.frames, s.vm.mem, s.vm.tables[s.mmu := Marked(s.vm.tables[s.mmu], vaddr, kind)]))
  }

  /** The instruction at the program counter, if the fetch is granted. */
  function Fetched(s: State): Option<Instr>
    requires Linked(s) && s.mmu in s.procs
  {
    match Translate(s.vm.tables[s.mmu], s.pc, Fetch)
    case Granted(paddr) => if paddr < MEMORY then Some(Decode(s.vm.mem[paddr])) else None
    case _ => None
  }

  /** One processor cycle without a pending interrupt. A memory access beyond the physical
      memory stops the simulator. */
  function Cycle(s: State, time: Word): (r: State)
    requires Linked(s) && s.mmu in s.procs && s.procs[s.idle].id == 0
    requires Fetched(s) == Some(Instr.Syscall) && s.gprs[0] == 0 ==> s.current != Some(s.idle)
    ensures Linked(r) && Within(s, r)
  {
    match Translate(s.vm.tables[s.mmu], s.pc, Fetch)
    case PageFault => Exception(s, true, s.pc)
    case ProtectionFault => Exception(s, false, s.pc)
    case Granted(paddr) =>
      if paddr >= MEMORY then s.(on := false)
      else Perform(Touch(s, s.pc, Fetch), Execute(Decode(s.vm.mem[paddr]), s.gprs, Wrap(s.pc + 1)), Wrap(s.pc + 1),
        time)
  }

  function Perform(s: State, e: Effect, next: Word, time: Word): (r: State)
    requires Linked(s) && s.mmu in s.procs && s.procs[s.idle].id == 0
    requires e.Trap? && s.gprs[0] == 0 ==> s.current != Some(s.idle)
    ensures Linked(r) && Within(s, r)
  {
    match e
    case Registers(gprs, pc) => s.(gprs := gprs, pc := pc)
    case ReadWord(addr, dest) =>
      (match Translate(s.vm.tables[s.mmu], addr, Read)
       case PageFault => Exception(s, true, addr)
       case ProtectionFault => Exception(s, false, addr)
       case Granted(paddr) =>
         if paddr >= MEMORY then s.(on := false)
         else Touch(s, addr, Read).(gprs := SetReg(s.gprs, dest, s.vm.mem[paddr]), pc := next))
    case WriteWord(addr, value) =>
      (match Translate(s.vm.tables[s.mmu], addr, Write)
       case PageFault => Exception(s, true, addr)
       case ProtectionFault => Exception(s, false, addr)
       case Granted(paddr) =>
         if paddr >= MEMORY then s.(on := false)
         else
           var t := Touch(s, addr, Write);
           t.(vm := StoreAt(t.vm, s.mmu, addr, value), pc := next))
    case Trap => SystemCall(s.(pc := next), time)
    case BadInstruction => Exception(s, false, s.pc)
    case Crash => s.(on := false)
  }

  // ---------- events and runs ----------

  datatype Event =
    | TimerInterrupt
    | CpuCycle(time: Word)
    | LoadCommand(image: seq<Word>, isIdle: bool)
    | KillCommand(pid: Word)
    | QuitCommand
    | OtherInput

  /** What the kernel counts on from outside: the machine is on, the idle program never exits,
      no division by zero is executed, and fewer than 65536 processes are created. */
  ghost predicate Enabled(s: State, e: Event) {
    && s.on && Linked(s) && s.mmu in s.procs && s.procs[s.idle].id == 0 && s.nextAddr !in s.procs
    && match e
       case CpuCycle(_) =>
         && (Fetched(s) == Some(Instr.Syscall) && s.gprs[0] == 0 ==> s.current != Some(s.idle))
         && (Fetched(s).Some? ==> Execute(Fetched(s).value, s.gprs, 0) != Crash)
       case LoadCommand(image, isIdle) => image != [] && !isIdle ==> s.nextPid < 0xFFFF
       case _ => true
  }

  ghost function Step(s: State, e: Event): (r: State)
    requires Enabled(s, e)
    ensures Linked(r)
  {
    match e
    case TimerInterrupt => Timer(s)
    case CpuCycle(time) => Cycle(s, time)
    case LoadCommand(image, isIdle) => LoadProgram(s, image, isIdle)
    case KillCommand(pid) => Kill(s, pid)
    case QuitCommand => s.(on := false)
    case OtherInput => s
  }

  ghost predicate Possible(s: State, es: seq<Event>)
    decreases |es|
  {
    es == [] || (Enabled(s, es[0]) && Possible(Step(s, es[0]), es[1..]))
  }

  ghost function Run(s: State, es: seq<Event>): (r: State)
    requires Possible(s, es)
    ensures Linked(s) ==> Linked(r)
    decreases |es|
  {
    if es == [] then s else Run(Step(s, es[0]), es[1..])
  }
}
