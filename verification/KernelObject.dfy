/** The kernel as the program has it: one object whose fields the handlers update in place, with
    the loops of the original. Every method is tied to the state machine of module Kernel. */
module KernelObject {
  import opened Options
  import opened Isa
  import opened Paging
  import opened AddressSpaces
  import opened Kernel
  import opened KernelInvariant
  import opened FrameAccounting
  import opened Scheduling

  class Machine {
    const frames: array<bool>
    const mem: array<Word>
    var tables: map<Addr, PageTable>
    var procs: map<Addr, Proc>
    var order: seq<Addr>
    var current: Option<Addr>
    var idle: Addr
    var cursor: Option<Addr>
    var mmu: Addr
    var gprs: Regs
    var pc: Word
    var nextPid: nat
    var nextAddr: Addr
    var on: bool
    var out: seq<Word>

    ghost predicate Sized() {
      frames.Length == FRAMES && mem.Length == MEMORY
    }

    ghost function VmValue(): Vm
      requires Sized()
      reads this, frames, mem
    {
      Vm(frames[..], mem[..], tables)
    }

    /** The state of the machine as a value. */
    ghost function Value(): State
      requires Sized()
      reads this, frames, mem
    {
      State(VmValue(), procs, order, current, idle, cursor, mmu, gprs, pc, nextPid, nextAddr, on, out)
    }

    /** The machine before boot: zeroed memory and registers, no process. */
    constructor ()
      ensures Sized() && fresh(frames) && fresh(mem) && Blank()
    {
      frames := new bool[FRAMES];
      mem := new Word[MEMORY](i => 0);
      tables, procs, order := map[], map[], [];
      current, idle, cursor, mmu := None, 0, None, 0;
      gprs, pc := [0, 0, 0, 0, 0, 0, 0, 0], 0;
      nextPid, nextAddr, on, out := 0, 0, true, [];
    }

    ghost predicate Blank()
      requires Sized()
      reads this, mem
    {
      && mem[..] == BootMemory() && tables == map[] && procs == map[] && order == []
      && current == None && cursor == None && nextPid == 0 && nextAddr == 0 && on && out == []
    }

    /** Boot: all frames but the two reserved ones free, and the idle program loaded and running. */
    method BootSystem(image: seq<Word>)
      requires Sized() && Blank() && image != []
      modifies this, frames, mem
      ensures Value() == Boot(image) && Inv(Value())
    {
      hide Within, LoadPages, VmInv, Linked, Wrap, PagesNeeded, Least, EmptyTable, Inv, BootMemory;
      BootInv(image);
      InitVmem();
      LoadIdle(image);
      BootLinked(VmValue(), NewProc(0, image), gprs, pc);
      RestoreProcessContext(idle);
      assert procs == map[0 := NewProc(0, image).(status := Running)];
    }

    method LoadIdle(image: seq<Word>)
      requires Sized() && Blank() && frames[..] == BootFrames()
      modifies this`procs, this`tables, this`order, this`nextPid, this`nextAddr, this`mmu, this`idle, frames, mem
      ensures VmValue() == Boot(image).vm && tables.Keys == {0}
      ensures idle == 0 && mmu == 0 && order == [0] && nextPid == 0 && nextAddr == 1
      ensures procs == map[0 := NewProc(0, image)]
    {
      hide Within, Distinct, LoadPages, Wrap, PagesNeeded, Least, EmptyTable, BootMemory, BootFrames;
      ghost var pages := Least(PagesNeeded(|image|), PTES);
      LeastBound(PagesNeeded(|image|), PTES);
      idle := CreateProcessStruct(true);
      LoadPagesKeys(VmValue(), 0, image, 0, pages);
      ProcessMemoryConfig(idle, image);
    }

    static lemma LeastBound(a: nat, b: nat)
      ensures Least(a, b) <= b
    {
    }

    static lemma BootLinked(vm: Vm, p: Proc, gprs: Regs, pc: Word)
      requires vm.tables.Keys == {0}
      ensures Linked(State(vm, map[0 := p], [0], None, 0, None, 0, gprs, pc, 0, 1, true, []))
    {
    }

    method InitVmem()
      requires Sized()
      modifies frames
      ensures frames[..] == BootFrames()
    {
      for i := 0 to FRAMES
        invariant forall j :: 0 <= j < i ==> !frames[j]
      {
        frames[i] := false;
      }
      frames[0] := true;
      frames[1] := true;
    }

    // ---------- frames and pages ----------

    method AllocatePhysicalFrame() returns (f: int)
      requires Sized()
      modifies frames
      ensures var free := FirstFree(old(frames[..]), 2);
              if free < FRAMES then f == free && frames[..] == old(frames[..])[free := true]
              else f == -1 && frames[..] == old(frames[..])
    {
      for i := 2 to FRAMES
        invariant frames[..] == old(frames[..])
        invariant FirstFree(frames[..], 2) == FirstFree(frames[..], i)
      {
        if !frames[i] {
          frames[i] := true;
          return i;
        }
      }
      return -1;
    }

    method FreePhysicalFrame(frame: nat)
      requires Sized()
      modifies frames
      ensures frames[..] == if frame < FRAMES then old(frames[..])[frame := false] else old(frames[..])
    {
      if frame < FRAMES {
        frames[frame] := false;
      }
    }

    /** The kernel's own translation; it agrees with the memory-management unit on every present
        page and leaves the usage bits alone. */
    method VaddrToPaddr(vaddr: Word) returns (paddr: int)
      requires mmu in tables
      ensures tables[mmu][Page(vaddr)].present <==> paddr >= 0
      ensures paddr >= 0 ==> paddr == tables[mmu][Page(vaddr)].frame * PAGE + Offset(vaddr)
      ensures paddr >= 0 && AllRights(tables[mmu][Page(vaddr)]) ==>
                forall kind :: Translate(tables[mmu], vaddr, kind) == Granted(paddr)
    {
      var entry := tables[mmu][vaddr / PAGE];
      if !entry.present {
        return -1;
      }
      return entry.frame * PAGE + vaddr % PAGE;
    }

    /** Sixteen words written one by one. */
    method WritePage(frame: nat, words: seq<Word>)
      requires Sized() && frame < FRAMES && |words| == PAGE
      modifies mem
      ensures mem[..] == Fill(old(mem[..]), frame, words)
    {
      for w := 0 to PAGE
        invariant forall i :: 0 <= i < MEMORY ==>
                    mem[i] == if frame * PAGE <= i < frame * PAGE + w then words[i - frame * PAGE] else old(mem[i])
      {
        mem[frame * PAGE + w] := words[w];
      }
    }

    method FreeVirtualPage(a: Addr, vaddr: Word, n: nat) returns (freedAny: bool)
      requires Sized() && a in tables
      modifies this`tables, frames
      ensures VmValue() == FreePages(old(VmValue()), a, Page(vaddr), n)
      ensures freedAny <==> n > 0 && AnyPresent(old(tables[a]), Page(vaddr), n)
    {
      hide AnyPresent;
      freedAny := false;
      var start := vaddr / PAGE;
      NothingPresent(tables[a], start);
      ghost var vm := VmValue();
      var i := 0;
      while i < n && start + i < PTES
        invariant i <= n && a in tables
        invariant VmValue() == FreePages(vm, a, start, i)
        invariant forall w: nat :: w < PTES && !(start <= w < start + i) ==> tables[a][w] == vm.tables[a][w]
        invariant freedAny <==> AnyPresent(vm.tables[a], start, i)
      {
        var entry := tables[a][start + i];
        if entry.present {
          FreePhysicalFrame(entry.frame);
          freedAny := true;
        }
        AnyPresentStep(vm.tables[a], start, i);
        tables := tables[a := tables[a][start + i := EMPTY]];
        i := i + 1;
      }
      FreePagesBeyond(vm, a, start, i, n);
      AnyPresentBeyond(vm.tables[a], start, i, n);
    }

    static lemma NothingPresent(t: PageTable, start: nat)
      ensures !AnyPresent(t, start, 0)
    {
    }

    static lemma AnyPresentStep(t: PageTable, start: nat, i: nat)
      requires start + i < PTES
      ensures AnyPresent(t, start, i + 1) <==> AnyPresent(t, start, i) || t[start + i].present
    {
      if AnyPresent(t, start, i) {
        var v :| start <= v < start + i && v < PTES && t[v].present;
        assert start <= v < start + (i + 1);
      }
      if t[start + i].present {
        assert start <= start + i < start + (i + 1);
      }
    }

    static lemma AnyPresentBeyond(t: PageTable, start: nat, i: nat, n: nat)
      requires i <= n && (i == n || start + i >= PTES)
      ensures AnyPresent(t, start, n) <==> AnyPresent(t, start, i)
    {
      if AnyPresent(t, start, n) {
        var v :| start <= v < start + n && v < PTES && t[v].present;
        assert start <= v < start + i;
      }
      if AnyPresent(t, start, i) {
        var v :| start <= v < start + i && v < PTES && t[v].present;
        assert start <= v < start + n;
      }
    }

    static lemma {:induction false} FreePagesBeyond(vm: Vm, a: Addr, start: nat, i: nat, n: nat)
      requires a in vm.tables && i <= n && (i == n || start + i >= PTES)
      ensures FreePages(vm, a, start, n) == FreePages(vm, a, start, i)
      decreases n
    {
      if i < n {
        FreePagesBeyond(vm, a, start, i, n - 1);
      }
    }

    method HandleDemandPaging(a: Addr, vaddr: Word) returns (ok: bool)
      requires Sized() && a in procs && a in tables && mmu == a
      modifies this`tables, frames, mem
      ensures ok <==> Page(vaddr) < procs[a].numPages && !old(tables[a][Page(vaddr)]).present
                      && FirstFree(old(frames[..]), 2) < FRAMES
      ensures VmValue() == if ok then DemandPage(old(VmValue()), a, Page(vaddr)) else old(VmValue())
    {
      var v := vaddr / PAGE;
      if v >= procs[a].numPages {
        return false;
      }
      if tables[a][v].present {
        return false;
      }
      var frame := AllocatePhysicalFrame();
      if frame == -1 {
        return false;
      }
      tables := tables[mmu := tables[mmu][v := Present(frame)]];
      WritePage(frame, ZEROS);
      return true;
    }

    /** The image copied page by page into fresh frames, until they run out. */
    method ProcessMemoryConfig(a: Addr, image: seq<Word>)
      requires Sized() && a in procs && a in tables
      modifies this`tables, this`procs, this`mmu, frames, mem
      ensures VmValue() == LoadPages(old(VmValue()), a, image, 0, Least(PagesNeeded(|image|), PTES))
      ensures procs == old(procs)[a := old(procs[a]).(numPages := Wrap(PagesNeeded(|image|)))] && mmu == a
    {
      var needed := (|image| + (PAGE - 1)) / PAGE;
      procs := procs[a := procs[a].(numPages := Wrap(needed))];
      mmu := a;
      LoadImagePages(image, if needed < PTES then needed else PTES);
    }

    method LoadImagePages(image: seq<Word>, pages: nat)
      requires Sized() && mmu in tables && pages <= PTES
      modifies this`tables, frames, mem
      ensures VmValue() == LoadPages(old(VmValue()), mmu, image, 0, pages)
    {
      hide Fill, ImagePage, FrameWords, LoadPages, FirstFree, PlaceFilled;
      ghost var vm := VmValue();
      var p := 0;
      while p < pages
        invariant p <= pages && mmu in tables
        invariant LoadPages(VmValue(), mmu, image, p, pages) == LoadPages(vm, mmu, image, 0, pages)
      {
        ghost var before := VmValue();
        LoadPagesStep(before, mmu, image, p, pages);
        var frame := AllocatePhysicalFrame();
        if frame == -1 {
          break;
        }
        tables := tables[mmu := tables[mmu][p := Present(frame)]];
        CopyImagePage(frame, image, p);
        Placed(before, VmValue(), mmu, p, frame, ImagePage(image, p, FrameWords(before.mem, frame)));
        p := p + 1;
      }
      LoadPagesStep(VmValue(), mmu, image, p, pages);
    }

    static lemma LoadPagesStep(vm: Vm, a: Addr, image: seq<Word>, p: nat, pages: nat)
      requires a in vm.tables && pages <= PTES
      ensures var f := FirstFree(vm.frames, 2);
              LoadPages(vm, a, image, p, pages) ==
              if p >= pages || f >= FRAMES then vm
              else LoadPages(PlaceFilled(vm, a, p, f, ImagePage(image, p, FrameWords(vm.mem, f))), a, image, p + 1,
                pages)
    {
      hide Fill, ImagePage, FrameWords, FirstFree, PlaceFilled;
    }

    static lemma Placed(vm: Vm, r: Vm, a: Addr, v: nat, f: nat, words: seq<Word>)
      requires a in vm.tables && v < PTES && f < FRAMES && |words| == PAGE
      requires r.frames == vm.frames[f := true] && r.mem == Fill(vm.mem, f, words)
      requires r.tables == vm.tables[a := vm.tables[a][v := Present(f)]]
      ensures r == PlaceFilled(vm, a, v, f, words)
    {
    }

    method CopyImagePage(frame: nat, image: seq<Word>, p: nat)
      requires Sized() && frame < FRAMES
      modifies mem
      ensures mem[..] == Fill(old(mem[..]), frame, ImagePage(image, p, FrameWords(old(mem[..]), frame)))
    {
      ghost var words := ImagePage(image, p, FrameWords(mem[..], frame));
      for w := 0 to PAGE
        invariant forall i :: 0 <= i < MEMORY ==>
                    mem[i] == if frame * PAGE <= i < frame * PAGE + w then words[i - frame * PAGE] else old(mem[i])
      {
        if p * PAGE + w < |image| {
          mem[frame * PAGE + w] := image[p * PAGE + w];
        }
      }
    }

    method FreeProcessMemory(a: Addr)
      requires Sized() && a in tables
      modifies this`tables, frames
      ensures VmValue() == FreeAll(old(VmValue()), a, PTES)
    {
      ghost var vm := VmValue();
      for p := 0 to PTES
        invariant a in tables && VmValue() == FreeAll(vm, a, p)
      {
        var entry := tables[a][p];
        if entry.present {
          FreePhysicalFrame(entry.frame);
          tables := tables[a := tables[a][p := EMPTY]];
        }
      }
    }

    // ---------- processes ----------

    /** The position of an address in the process table. */
    method PositionOf(a: Addr) returns (i: nat)
      requires a in order
      ensures i == IndexOf(order, a)
    {
      i := 0;
      while order[i] != a
        invariant i < |order| && a in order[i..] && IndexOf(order, a) == i + IndexOf(order[i..], a)
        decreases |order| - i
      {
        assert order[i..][1..] == order[i + 1..];
        i := i + 1;
      }
    }

    /** The list node erased; an iterator at it moves on to the next node. */
    method EraseFromTable(a: Addr)
      requires a in order
      modifies this`order, this`cursor
      ensures order == Erased(old(order), a)
      ensures cursor == if old(cursor) == Some(a) then Successor(old(order), a) else old(cursor)
    {
      var i := PositionOf(a);
      if cursor == Some(a) {
        cursor := if i + 1 < |order| then Some(order[i + 1]) else None;
      }
      order := order[..i] + order[i + 1..];
    }

    method DestroyProcess(a: Addr)
      requires Sized() && Linked(Value()) && a in procs && a != idle && current != Some(a)
      modifies this, frames
      ensures Value() == Destroy(old(Value()), a)
    {
      hide Within, FreeAll, Erased, Successor, Distinct;
      FreeProcessMemory(a);
      EraseFromTable(a);
      procs := procs - {a};
      tables := tables - {a};
    }

    method GetProcessByPid(pid: nat) returns (r: Option<Addr>)
      requires forall a :: a in order ==> a in procs
      ensures r == FindPid(procs, order, pid)
    {
      var i := 0;
      assert order[0..] == order;
      while i < |order|
        invariant i <= |order| && FindPid(procs, order, pid) == FindPid(procs, order[i..], pid)
      {
        if procs[order[i]].id == pid {
          return Some(order[i]);
        }
        assert order[i..][1..] == order[i + 1..];
        i := i + 1;
      }
      return None;
    }

    method UpdateSleepingProcesses()
      requires Distinct(order) && forall a :: a in order <==> a in procs
      modifies this`procs
      ensures procs == TickAll(old(procs)) && procs.Keys == old(procs).Keys
    {
      ghost var before := procs;
      for i := 0 to |order|
        invariant procs.Keys == before.Keys
        invariant forall a :: a in procs ==> procs[a] == if a in order[..i] then Tick(before[a]) else before[a]
      {
        var a := order[i];
        var p := procs[a];
        NotBefore(order, i);
        if p.status == Blocked && p.sleep > 0 {
          p := p.(sleep := p.sleep - 1);
          if p.sleep == 0 {
            p := p.(status := Ready);
          }
          procs := procs[a := p];
        }
      }
      assert order[..|order|] == order;
    }

    static lemma NotBefore(order: seq<Addr>, i: nat)
      requires Distinct(order) && i < |order|
      ensures order[i] !in order[..i] && order[..i + 1] == order[..i] + [order[i]]
    {
    }

    // ---------- scheduling ----------

    method SaveCurrentContext()
      requires Sized() && Linked(Value())
      modifies this`procs
      ensures Value() == SaveContext(old(Value()))
    {
      if current.Some? {
        var p := procs[current.value].(pc := pc, gprs := gprs);
        if p.status == Running {
          p := p.(status := Ready);
        }
        procs := procs[current.value := p];
      }
    }

    method RestoreProcessContext(a: Addr)
      requires Sized() && Linked(Value()) && a in procs
      modifies this`current, this`procs, this`mmu, this`gprs, this`pc
      ensures Value() == RestoreContext(old(Value()), a)
    {
      hide Within, Distinct, Linked;
      var p := procs[a].(status := Running);
      current := Some(a);
      procs := procs[a := p];
      mmu := a;
      gprs := p.gprs;
      pc := p.pc;
    }

    /** The walk of the cursor, once around the table at most, to the next eligible process. */
    method NextEligible() returns (next: Option<Addr>)
      requires (forall a :: a in order ==> a in procs) && order != []
      requires cursor.Some? ==> cursor.value in order
      modifies this`cursor
      ensures var start := if old(cursor).None? then 0 else IndexOf(order, old(cursor).value);
              var d := Search(procs, order, start, 1);
              if d <= |order| then next == cursor == Some(At(order, start, d))
              else next == None && cursor == Some(order[start])
    {
      hide Search, IndexOf;
      if cursor == None {
        cursor := Some(order[0]);
      }
      var start := PositionOf(cursor.value);
      AtStart(order, start);
      next := None;
      var d := 0;
      while d < |order| && next == None
        invariant d <= |order| && cursor == Some(At(order, start, d))
        invariant next == None ==> Search(procs, order, start, 1) == Search(procs, order, start, d + 1)
        invariant next != None ==> d == Search(procs, order, start, 1) && next == cursor
      {
        SearchUnfold(procs, order, start, d + 1);
        d := d + 1;
        cursor := Some(order[(start + d) % |order|]);
        var p := procs[cursor.value];
        if p.id != 0 && (p.status == Ready || p.status == Running) {
          next := cursor;
        }
      }
      SearchUnfold(procs, order, start, |order| + 1);
    }

    static lemma SearchUnfold(procs: map<Addr, Proc>, order: seq<Addr>, start: nat, d: nat)
      requires order != [] && (forall a :: a in order ==> a in procs) && d <= |order| + 1
      ensures Search(procs, order, start, d) ==
              if d > |order| || Eligible(procs[At(order, start, d)]) then d else Search(procs, order, start, d + 1)
    {
    }

    /** Round robin. */
    method ScheduleNext()
      requires Sized() && Linked(Value())
      modifies this
      ensures Value() == Schedule(old(Value()))
    {
      hide Within, Search, SaveContext, RestoreContext, Distinct;
      SaveCurrentContext();
      assert idle in order;
      var next := NextEligible();
      RestoreProcessContext(if next == None then idle else next.value);
    }

    /** Distance 0 and one full round both lead back to the start. */
    static lemma AtStart(order: seq<Addr>, start: nat)
      requires start < |order|
      ensures At(order, start, 0) == order[start] && At(order, start, |order|) == order[start]
    {
      ModOnce(start, |order|);
      ModOnce(start + |order|, |order|);
    }

    // ---------- commands ----------

    /** The current process destroyed and the next one started. */
    method DestroyCurrentProcess()
      requires Sized() && Linked(Value()) && current.Some? && current.value != idle
      modifies this, frames
      ensures Value() == DestroyCurrent(old(Value()))
    {
      hide Within, Destroy, Schedule, Distinct;
      var proc := current.value;
      current := None;
      DestroyProcess(proc);
      ScheduleNext();
    }

    method CmdKillProcess(pid: nat)
      requires Sized() && Linked(Value()) && procs[idle].id == 0
      modifies this, frames
      ensures Value() == Kill(old(Value()), pid)
    {
      hide Within, Destroy, DestroyCurrent, Distinct;
      if pid == 0 {
        return;
      }
      var found := GetProcessByPid(pid);
      if found == None {
        return;
      }
      if current == found {
        DestroyCurrentProcess();
      } else {
        DestroyProcess(found.value);
      }
    }

    /** A new record at the end of the process table. */
    method CreateProcessStruct(isIdle: bool) returns (a: Addr)
      modifies this`procs, this`tables, this`order, this`nextPid, this`nextAddr
      ensures a == old(nextAddr) && nextAddr == a + 1 && order == old(order) + [a]
      ensures nextPid == if isIdle then old(nextPid) else old(nextPid) + 1
      ensures procs == old(procs)[a := Proc(if isIdle then 0 else nextPid, 1, Ready,
              [0, 0, 0, 0, 0, 0, 0, 0], 0, 0, 0, [])]
      ensures tables == old(tables)[a := EmptyTable()]
    {
      a := nextAddr;
      var id := 0;
      if !isIdle {
        nextPid := nextPid + 1;
        id := nextPid;
      }
      procs := procs[a := Proc(id, 1, Ready, [0, 0, 0, 0, 0, 0, 0, 0], 0, 0, 0, [])];
      tables := tables[a := EmptyTable()];
      order := order + [a];
      nextAddr := nextAddr + 1;
    }

    method LoadUserProgram(image: seq<Word>, isIdle: bool) returns (loaded: bool)
      requires Sized() && Linked(Value()) && nextAddr !in procs
      modifies this, frames, mem
      ensures loaded <==> image != []
      ensures Value() == if loaded then Create(old(Value()), image, isIdle) else old(Value())
    {
      hide Within, LoadPages, Linked, Wrap, PagesNeeded;
      if image == [] {
        return false;
      }
      ghost var before := procs;
      var a := CreateProcessStruct(isIdle);
      ProcessMemoryConfig(a, image);
      assert procs == before[a := NewProc(if isIdle then 0 else nextPid, image)];
      return true;
    }

    method CmdLoad(image: seq<Word>, isIdle: bool)
      requires Sized() && Linked(Value()) && nextAddr !in procs
      modifies this, frames, mem
      ensures Value() == LoadProgram(old(Value()), image, isIdle)
    {
      hide Within, Create, SaveContext, RestoreContext, Distinct;
      ghost var s := Value();
      CreatedAddress(s, image, isIdle);
      var a := nextAddr;
      var loaded := LoadUserProgram(image, isIdle);
      if loaded {
        SaveCurrentContext();
        RestoreProcessContext(a);
      }
    }

    static lemma CreatedAddress(s: State, image: seq<Word>, isIdle: bool)
      requires Linked(s) && s.nextAddr !in s.procs
      ensures s.nextAddr in Create(s, image, isIdle).procs
              && Create(s, image, isIdle).procs.Keys == s.procs.Keys + {s.nextAddr}
    {
    }

    method TimerHandler()
      requires Sized() && Linked(Value())
      modifies this
      ensures Value() == Timer(old(Value()))
    {
      hide Within, Preempt, Distinct;
      UpdateSleepingProcesses();
      CountQuantum();
    }

    /** The end of the timer handler: the quantum of a running user process, or a rescheduling. */
    method CountQuantum()
      requires Sized() && Linked(Value())
      modifies this
      ensures Value() == Preempt(old(Value()))
    {
      hide Within, Schedule, Distinct;
      if current.Some? && procs[current.value].id != 0 && procs[current.value].status == Running {
        var p := procs[current.value];
        p := p.(quantum := p.quantum + 1);
        if p.quantum >= QUANTUM {
          p := p.(quantum := 0);
          p := p.(status := Ready);
          procs := procs[current.value := p];
          ScheduleNext();
        } else {
          procs := procs[current.value := p];
        }
      } else {
        ScheduleNext();
      }
    }

    // ---------- system calls ----------

    method SysMalloc()
      requires Sized() && Linked(Value())
      modifies this`procs, this`gprs
      ensures Value() == Malloc(old(Value()))
    {
      hide Within, Distinct;
      var words := gprs[1];
      if words == 0 || current == None {
        gprs := SetReg(gprs, 1, 0);
        return;
      }
      var c := current.value;
      var p := procs[c];
      var pages, start := (words + PAGE - 1) / PAGE, Wrap(p.numPages * PAGE);
      p := p.(numPages := Wrap(p.numPages + pages));
      p := p.(blocks := p.blocks + [Block(start, pages)]);
      procs := procs[c := p];
      gprs := SetReg(gprs, 1, 1);
      gprs := SetReg(gprs, 2, start);
    }

    /** The search for a block by its start address. */
    method PositionOfBlock(blocks: seq<Block>, vaddr: Word) returns (i: nat)
      ensures i == FindBlock(blocks, vaddr)
    {
      i := 0;
      assert blocks[0..] == blocks;
      while i < |blocks| && blocks[i].start != vaddr
        invariant i <= |blocks| && FindBlock(blocks, vaddr) == i + FindBlock(blocks[i..], vaddr)
      {
        assert blocks[i..][1..] == blocks[i + 1..];
        i := i + 1;
      }
    }

    /** The block that starts at vaddr taken off the list; one page if there is none. */
    method RemoveBlock(c: Addr, vaddr: Word) returns (found: bool, n: nat)
      requires c in procs
      modifies this`procs
      ensures var p := old(procs)[c];
              var i := FindBlock(p.blocks, vaddr);
              && found == (i < |p.blocks|) && n == (if found then p.blocks[i].pages else 1)
              && procs == if found then old(procs)[c := p.(blocks := p.blocks[..i] + p.blocks[i + 1..])] else old(procs)
    {
      found, n := false, 1;
      var p := procs[c];
      var i := PositionOfBlock(p.blocks, vaddr);
      if i < |p.blocks| {
        n := p.blocks[i].pages;
        procs := procs[c := p.(blocks := p.blocks[..i] + p.blocks[i + 1..])];
        found := true;
      }
    }

    static lemma FreeIs(s: State)
      requires Linked(s)
      ensures s.current.None? ==> Free(s) == s.(gprs := SetReg(s.gprs, 1, 0))
      ensures s.current.Some? ==> s.current.value in s.procs && s.current.value in s.vm.tables
      ensures s.current.Some? ==>
              var c, p, v := s.current.value, s.procs[s.current.value], s.gprs[1];
              var i := FindBlock(p.blocks, v);
              var n := if i < |p.blocks| then p.blocks[i].pages else 1;
              var ok := (n > 0 && AnyPresent(s.vm.tables[c], Page(v), n)) || i < |p.blocks|;
              var procs := if i < |p.blocks| then s.procs[c := p.(blocks := p.blocks[..i] + p.blocks[i + 1..])]
                else s.procs;
              Free(s) == State(FreePages(s.vm, c, Page(v), n), procs, s.order, s.current, s.idle, s.cursor, s.mmu,
                               SetReg(s.gprs, 1, if ok then 1 else 0), s.pc, s.nextPid, s.nextAddr, s.on, s.out)
    {
      hide Within, Distinct, FreePages, AnyPresent, FindBlock;
    }

    method FreeBlock(c: Addr, vaddr: Word) returns (ok: bool)
      requires Sized() && c in procs && c in tables
      modifies this`tables, this`procs, frames
      ensures var p := old(procs)[c];
              var i := FindBlock(p.blocks, vaddr);
              var n := if i < |p.blocks| then p.blocks[i].pages else 1;
              && VmValue() == FreePages(old(VmValue()), c, Page(vaddr), n)
              && procs == (if i < |p.blocks| then old(procs)[c := p.(blocks := p.blocks[..i] + p.blocks[i + 1..])]
                 else old(procs))
              && ok == ((n > 0 && AnyPresent(old(tables)[c], Page(vaddr), n)) || i < |p.blocks|)
    {
      hide FreePages, AnyPresent, FindBlock;
      var found, n := RemoveBlock(c, vaddr);
      var success := FreeVirtualPage(c, vaddr, n);
      ok := success || found;
    }

    method SysFree()
      requires Sized() && Linked(Value())
      modifies this`tables, this`procs, this`gprs, frames
      ensures Value() == Free(old(Value()))
    {
      hide Within, Linked, FreePages, AnyPresent, FindBlock, Free, SetReg;
      FreeIs(Value());
      if current == None {
        gprs := SetReg(gprs, 1, 0);
      } else {
        var ok := FreeBlock(current.value, gprs[1]);
        gprs := SetReg(gprs, 1, if ok then 1 else 0);
      }
    }

    method SysSleep()
      requires Sized() && Linked(Value())
      modifies this
      ensures Value() == Sleep(old(Value()))
    {
      hide Within, Distinct, Schedule;
      var ticks := gprs[1];
      if current.Some? && procs[current.value].id != 0 {
        var c := current.value;
        var p := procs[c];
        if ticks > 0 {
          p := p.(sleep := ticks);
          p := p.(status := Blocked);
          procs := procs[c := p];
        }
        ScheduleNext();
      }
    }

    /** The printer's endless loop. It ends because no process has all its pages present. */
    method PrintWords() returns (bad: bool)
      requires Sized() && mmu in tables && VmInv(VmValue())
      modifies this`out
      ensures var walk := WalkString(tables[mmu], mem[..], gprs[1], WALK);
              out == old(out) + walk.text && (bad <==> walk.end == BadAddress)
    {
      hide VmInv, WalkString;
      var vaddr := gprs[1];
      ghost var t, m := tables[mmu], mem[..];
      ghost var walk, n: nat := WalkString(t, m, vaddr, WALK), WALK;
      WalkEnds(VmValue(), mmu, vaddr);
      while true
        invariant WalkString(t, m, vaddr, n).end == walk.end
        invariant out + WalkString(t, m, vaddr, n).text == old(out) + walk.text
        decreases n
      {
        WalkUnfold(t, m, vaddr, n);
        var paddr := VaddrToPaddr(vaddr);
        if paddr < 0 || paddr >= MEMORY {
          return true;
        }
        var w := mem[paddr];
        if w == 0 || w % 256 == 0 {
          return false;
        }
        var next: Word := Wrap(vaddr as int + 1);
        Appended(out, w, WalkString(t, m, next, n - 1).text);
        out := out + [TermChar(w % 256)];
        if w / 256 != 0 {
          out := out + [TermChar(w / 256)];
        }
        vaddr, n := next, n - 1;
      }
    }

    static lemma WalkUnfold(t: PageTable, mem: Memory, vaddr: Word, n: nat)
      ensures var e, walk := t[Page(vaddr)], WalkString(t, mem, vaddr, n);
              if n == 0 then walk.end == Unfinished
              else if !e.present || e.frame >= FRAMES then walk == Walk([], BadAddress)
              else
                var w := mem[e.frame * PAGE + Offset(vaddr)];
                if w % 256 == 0 then walk == Walk([], Terminated)
                else
                  var rest := WalkString(t, mem, Wrap(vaddr + 1), n - 1);
                  walk == Walk(WordText(w) + rest.text, rest.end)
    {
    }

    static lemma Appended(out: seq<Word>, w: Word, rest: seq<Word>)
      ensures out + (WordText(w) + rest) == (out + WordText(w)) + rest
      ensures w / 256 == 0 ==> out + WordText(w) == out + [TermChar(w % 256)]
      ensures w / 256 != 0 ==> out + WordText(w) == out + [TermChar(w % 256)] + [TermChar(w / 256)]
    {
    }

    method SysPrintString()
      requires Sized() && Inv(Value())
      modifies this, frames
      ensures Value() == PrintString(old(Value()))
    {
      hide Within, Distinct, Kill, WalkString, VmInv, Table, RunsAtMost;
      var bad := PrintWords();
      if bad && current.Some? && procs[current.value].id != 0 {
        CmdKillProcess(procs[current.value].id);
      }
    }

    /** The digits of a number, as the terminal receives them. */
    method DecimalDigits(n: nat) returns (d: seq<Word>)
      ensures d == Decimal(n)
    {
      var k := n;
      d := [];
      while k >= 10
        invariant Decimal(n) == Decimal(k) + d
      {
        d := [48 + k % 10] + d;
        k := k / 10;
      }
      d := [48 + k] + d;
    }

    method SystemCallHandler(time: Word)
      requires Sized() && Inv(Value()) && (gprs[0] == 0 ==> current != Some(idle))
      modifies this, frames
      ensures Value() == SystemCall(old(Value()), time)
    {
      hide Within, Distinct, VmInv, Table, RunsAtMost, DestroyCurrent, PrintString, Malloc, Free, Sleep, Decimal;
      match gprs[0]
      case 0 => DestroyCurrentProcess();
      case 1 => SysPrintString();
      case 2 => out := out + [10];
      case 3 =>
        var digits := DecimalDigits(gprs[1]);
        out := out + digits;
      case 4 => SysMalloc();
      case 5 => SysFree();
      case 6 => SysSleep();
      case 7 => gprs := SetReg(gprs, 1, time);
      case _ =>
    }

    // ---------- processor ----------

    /** Translation for an access, which sets the usage bits when it is granted. */
    method VmemToPhys(vaddr: Word, kind: AccessKind) returns (access: Access)
      requires Sized() && Linked(Value()) && mmu in procs
      modifies this`tables
      ensures access == Translate(old(tables[mmu]), vaddr, kind)
      ensures Value() == if access.Granted? then Touch(old(Value()), vaddr, kind) else old(Value())
    {
      hide Within, Distinct;
      access := Translate(tables[mmu], vaddr, kind);
      if access.Granted? {
        var e := tables[mmu][vaddr / PAGE].(accessed := true);
        if kind == Write {
          e := e.(dirty := true);
        }
        tables := tables[mmu := tables[mmu][vaddr / PAGE := e]];
      }
    }

    method ExceptionHandler(pageFault: bool, vaddr: Word)
      requires Sized() && Inv(Value())
      modifies this, frames, mem
      ensures Value() == Exception(old(Value()), pageFault, vaddr)
    {
      hide Within, Distinct, VmInv, Table, RunsAtMost, DestroyCurrent, DemandPage;
      if pageFault && current.Some? {
        var served := HandleDemandPaging(current.value, vaddr);
        if served {
          return;
        }
      }
      if current == Some(idle) || current == None {
        on := false;
        return;
      }
      DestroyCurrentProcess();
    }

    /** Every granted address is inside the physical memory, so its bounds check never fires. */
    lemma GrantedInside(vaddr: Word, kind: AccessKind)
      requires Sized() && Inv(Value())
      ensures var access := Translate(tables[mmu], vaddr, kind); access.Granted? ==> access.paddr < MEMORY
    {
      hide Within, Distinct, VmInv, Table, RunsAtMost, Translate;
      ReadView(VmValue(), mmu, vaddr, kind);
    }

    method LoadInstruction(addr: Word, dest: Reg, next: Word, ghost time: Word)
      requires Sized() && Inv(Value())
      modifies this, frames, mem
      ensures Value() == Perform(old(Value()), ReadWord(addr, dest), next, time)
    {
      hide Within, Distinct, VmInv, Table, RunsAtMost, Exception, Touch, Translate;
      GrantedInside(addr, Read);
      var access := VmemToPhys(addr, Read);
      match access
      case PageFault => ExceptionHandler(true, addr);
      case ProtectionFault => ExceptionHandler(false, addr);
      case Granted(paddr) =>
        TouchMemory(old(Value()), addr, Read);
        ReadGranted(paddr, dest, next);
    }

    static lemma TouchMemory(s: State, vaddr: Word, kind: AccessKind)
      requires Linked(s) && s.mmu in s.procs
      ensures var r := Touch(s, vaddr, kind);
              r.gprs == s.gprs && r.vm.mem == s.vm.mem && r.vm.frames == s.vm.frames && r.mmu == s.mmu
      ensures Translate(Touch(s, vaddr, kind).vm.tables[s.mmu], vaddr, kind) ==
              Translate(s.vm.tables[s.mmu], vaddr, kind)
    {
    }

    method ReadGranted(paddr: nat, dest: Reg, next: Word)
      requires Sized() && paddr < MEMORY
      modifies this`gprs, this`pc
      ensures Value() == old(Value()).(gprs := SetReg(old(gprs), dest, old(mem[..])[paddr]), pc := next)
    {
      gprs := SetReg(gprs, dest, mem[paddr]);
      pc := next;
    }

    method StoreInstruction(addr: Word, value: Word, next: Word, ghost time: Word)
      requires Sized() && Inv(Value())
      modifies this, frames, mem
      ensures Value() == Perform(old(Value()), WriteWord(addr, value), next, time)
    {
      hide Within, Distinct, VmInv, Table, RunsAtMost, Exception, Touch, Translate;
      GrantedInside(addr, Write);
      var access := VmemToPhys(addr, Write);
      match access
      case PageFault => ExceptionHandler(true, addr);
      case ProtectionFault => ExceptionHandler(false, addr);
      case Granted(paddr) =>
        TouchMemory(old(Value()), addr, Write);
        WriteGranted(paddr, value, next);
    }

    method WriteGranted(paddr: nat, value: Word, next: Word)
      requires Sized() && paddr < MEMORY
      modifies this`pc, mem
      ensures Value() == old(Value()).(vm := Vm(old(frames[..]), old(mem[..])[paddr := value], tables), pc := next)
    {
      mem[paddr] := value;
      pc := next;
    }

    /** The instruction executed. Exceptions leave the program counter at the instruction. */
    method ExecuteInstruction(i: Instr, time: Word)
      requires Sized() && Inv(Value()) && Execute(i, gprs, Wrap(pc + 1)) != Crash
      requires i == Instr.Syscall && gprs[0] == 0 ==> current != Some(idle)
      modifies this, frames, mem
      ensures Value() == Perform(old(Value()), Execute(i, old(gprs), Wrap(old(pc) + 1)), Wrap(old(pc) + 1), time)
    {
      hide Within, Distinct, VmInv, Table, RunsAtMost, Exception, Touch, Translate, SystemCall, Linked;
      var next := Wrap(pc + 1);
      match i
      case Alu(op, dest, a, b) =>
        gprs := SetReg(gprs, dest, Compute(op, gprs[a], gprs[b]).w);
        pc := next;
      case Load(dest, a) => LoadInstruction(gprs[a], dest, next, time);
      case Store(a, b) => StoreInstruction(gprs[a], gprs[b], next, time);
      case Syscall =>
        SimpleKeeps(Value(), gprs, next);
        pc := next;
        SystemCallHandler(time);
      case Jump(target) => pc := target;
      case JumpCond(reg, target) => pc := if gprs[reg] == 1 then target else next;
      case Mov(reg, value) =>
        gprs := SetReg(gprs, reg, value);
        pc := next;
      case Illegal => ExceptionHandler(false, pc);
    }

    /** One cycle of the processor without a pending interrupt. */
    method RunCycle(time: Word)
      requires Sized() && Inv(Value()) && Enabled(Value(), CpuCycle(time))
      modifies this, frames, mem
      ensures Value() == Cycle(old(Value()), time) && Inv(Value())
    {
      hide Within, Distinct, VmInv, Table, RunsAtMost, Exception, Touch, Perform, Decode, Execute;
      ghost var s := Value();
      CycleKeeps(s, time);
      TouchKeeps(s, pc, Fetch);
      TouchFields(s, pc, Fetch);
      TouchMemory(s, pc, Fetch);
      GrantedInside(pc, Fetch);
      var access := VmemToPhys(pc, Fetch);
      match access
      case PageFault => ExceptionHandler(true, pc);
      case ProtectionFault => ExceptionHandler(false, pc);
      case Granted(paddr) =>
        CrashIndependent(Decode(mem[paddr]), gprs, Wrap(pc + 1), 0);
        ExecuteInstruction(Decode(mem[paddr]), time);
    }

    // ---------- events ----------

    /** One event: an interrupt, a shell command, or a processor cycle. */
    method HandleEvent(e: Event)
      requires Sized() && Inv(Value()) && Enabled(Value(), e)
      modifies this, frames, mem
      ensures Value() == Step(old(Value()), e) && Inv(Value())
    {
      StepKeeps(Value(), e);
      UnfoldStep(Value(), e);
      hide Inv, Enabled, Step, Within, Timer, Cycle, LoadProgram, Kill;
      match e
      case TimerInterrupt => TimerHandler();
      case CpuCycle(time) => RunCycle(time);
      case LoadCommand(image, isIdle) => CmdLoad(image, isIdle);
      case KillCommand(pid) => CmdKillProcess(pid);
      case QuitCommand => on := false;
      case OtherInput =>
    }

    static lemma UnfoldStep(s: State, e: Event)
      requires Inv(s) && Enabled(s, e)
      ensures Linked(s) && s.nextAddr !in s.procs && s.procs[s.idle].id == 0
      ensures match e
              case TimerInterrupt => Step(s, e) == Timer(s)
              case CpuCycle(time) => Step(s, e) == Cycle(s, time)
              case LoadCommand(image, isIdle) => Step(s, e) == LoadProgram(s, image, isIdle)
              case KillCommand(pid) => Step(s, e) == Kill(s, pid)
              case QuitCommand => Step(s, e) == s.(on := false)
              case OtherInput => Step(s, e) == s
    {
      hide VmInv, Table, RunsAtMost, Within, Timer, Cycle, LoadProgram, Kill;
    }

    /** Any run of events: the objects in memory stay what the state machine says. */
    method RunEvents(es: seq<Event>)
      requires Sized() && Inv(Value()) && Possible(Value(), es)
      modifies this, frames, mem
      ensures Value() == Run(old(Value()), es) && Inv(Value())
    {
      hide Inv, Step, Within, Enabled;
      ghost var s := Value();
      assert es[0..] == es;
      for i := 0 to |es|
        invariant Inv(Value()) && Possible(Value(), es[i..]) && Run(Value(), es[i..]) == Run(s, es)
      {
        assert es[i..][0] == es[i] && es[i..][1..] == es[i + 1..];
        HandleEvent(es[i]);
      }
    }
  }
}
