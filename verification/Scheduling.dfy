/** Fairness of the round-robin scheduler and the exactness of sleeping. */
module Scheduling {
  import opened Options
  import opened Bits
  import opened Isa
  import opened Paging
  import opened AddressSpaces
  import opened Kernel
  import opened KernelInvariant

  /** Process p could run but does not. */
  ghost predicate Waits(s: State, p: Addr) {
    p in s.procs && s.procs[p].status == Ready && s.procs[p].id != 0
  }

  // ---------- the distance from the cursor ----------

  /** The number of steps, 1 to |order|, from position start to process p. */
  function Steps(order: seq<Addr>, start: nat, p: Addr): (d: nat)
    requires p in order && start < |order|
    ensures 1 <= d <= |order|
  {
    var i := IndexOf(order, p);
    if i > start then i - start else i - start + |order|
  }

  lemma ModOnce(x: nat, n: nat)
    requires x < 2 * n
    ensures x % n == if x < n then x else x - n
  {
    if x < n {
      DivMod(0, n, x);
    } else {
      DivMod(1, n, x - n);
    }
  }

  lemma StepsReach(order: seq<Addr>, start: nat, p: Addr)
    requires p in order && start < |order|
    ensures At(order, start, Steps(order, start, p)) == p
  {
    ModOnce(start + Steps(order, start, p), |order|);
  }

  lemma IndexOfAt(order: seq<Addr>, k: nat)
    requires Distinct(order) && k < |order|
    ensures IndexOf(order, order[k]) == k
  {
  }

  /** After moving d steps, short of p, the rest of the way is d shorter. */
  lemma StepsAfter(order: seq<Addr>, start: nat, d: nat, p: Addr)
    requires Distinct(order) && p in order && start < |order| && d < Steps(order, start, p)
    ensures Steps(order, IndexOf(order, At(order, start, d)), p) == Steps(order, start, p) - d
  {
    hide IndexOf, Distinct, At;
    var n := |order|;
    var k := if start + d < n then start + d else start + d - n;
    AtOnce(order, start, d, k);
    IndexOfAt(order, k);
  }

  lemma AtOnce(order: seq<Addr>, start: nat, d: nat, k: nat)
    requires start < |order| && k < |order| && (k == start + d || k == start + d - |order|)
    ensures At(order, start, d) == order[k]
  {
    ModOnce(start + d, |order|);
  }

  /** How far the cursor is from process p. */
  ghost function Distance(s: State, p: Addr): (d: nat)
    requires Linked(s) && p in s.procs
    ensures 1 <= d <= |s.order|
  {
    Steps(s.order, CursorIndex(s), p)
  }

  /** One dispatch runs p, or some other process that could run, closer to p. The idle process
      is not chosen over an eligible one. */
  lemma DispatchCloser(s: State, p: Addr)
    requires Linked(s) && p in s.procs && Eligible(s.procs[p])
    ensures var r := Dispatch(s);
            && r.current.Some? && Eligible(s.procs[r.current.value])
            && (r.current == Some(p) || Distance(r, p) < Distance(s, p))
  {
    hide Within;
    var start := CursorIndex(s);
    var d := Search(s.procs, s.order, start, 1);
    StepsReach(s.order, start, p);
    assert d <= Steps(s.order, start, p);
    if d < Steps(s.order, start, p) {
      StepsAfter(s.order, start, d, p);
    }
  }

  lemma DispatchRecords(s: State)
    requires Linked(s)
    ensures var r := Dispatch(s);
            && r.order == s.order && r.procs.Keys == s.procs.Keys && r.current.Some?
               && r.procs[r.current.value].status == Running
            && forall a :: a in s.procs ==>
                 r.procs[a] == (if Some(a) == r.current then s.procs[a].(status := Running) else s.procs[a])
  {
    hide Within, Distinct;
  }

  // ---------- the time until p runs ----------

  /** Timer interrupts until the next scheduling at the latest. */
  ghost function TicksLeft(s: State): (t: nat)
    requires Linked(s)
    ensures 1 <= t
  {
    if s.current.Some? && s.procs[s.current.value].id != 0 && s.procs[s.current.value].status == Running
       && s.procs[s.current.value].quantum < QUANTUM
    then QUANTUM - s.procs[s.current.value].quantum else 1
  }

  lemma TicksBound(s: State)
    requires Linked(s)
    ensures TicksLeft(s) <= QUANTUM
  {
  }

  /** A bound on the timer interrupts until p runs, if no process comes or goes. */
  ghost function Wait(s: State, p: Addr): (t: nat)
    requires Linked(s) && p in s.procs
    ensures 1 <= t
  {
    QUANTUM * (Distance(s, p) - 1) + TicksLeft(s)
  }

  lemma WaitBound(s: State, p: Addr)
    requires Linked(s) && p in s.procs
    ensures Wait(s, p) <= QUANTUM * |s.order|
  {
    hide Distance, TicksLeft;
    TicksBound(s);
  }

  /** What an event does to a waiting process p that it leaves alive: p runs, or waits on with
      no more time to go than `most`, counted anew when another process has left the table. */
  ghost predicate StillFair(s: State, r: State, p: Addr, most: int)
    requires Linked(r)
  {
    p in r.procs ==>
      || r.current == Some(p)
      || (Waits(r, p) && ((r.order == s.order && Wait(r, p) <= most) || |r.order| < |s.order|))
  }

  /** A sleeping process sleeps on. */
  ghost predicate SleepsOn(s: State, r: State, p: Addr)
    requires p in s.procs
  {
    p in r.procs && s.procs[p].status == Blocked ==>
      r.procs[p].status == Blocked && r.procs[p].sleep == s.procs[p].sleep
  }

  /** Nothing that concerns scheduling has changed. */
  ghost predicate Quiet(s: State, r: State) {
    && r.order == s.order && r.cursor == s.cursor && r.current == s.current && r.procs.Keys == s.procs.Keys
    && forall a :: a in s.procs ==>
         && r.procs[a].status == s.procs[a].status && r.procs[a].sleep == s.procs[a].sleep
         && r.procs[a].quantum == s.procs[a].quantum && r.procs[a].id == s.procs[a].id
  }

  lemma QuietFair(s: State, r: State, p: Addr)
    requires Linked(s) && Linked(r) && Quiet(s, r) && p in s.procs
    ensures Waits(s, p) ==> StillFair(s, r, p, Wait(s, p))
    ensures SleepsOn(s, r, p)
  {
  }

  /** Scheduling brings p closer and starts at most one full quantum. */
  lemma ScheduleFair(s: State, p: Addr)
    requires Linked(s) && p in s.procs
    ensures Waits(s, p) ==> StillFair(s, Schedule(s), p, QUANTUM * (Distance(s, p) - 1))
    ensures s.procs[s.idle].status != Blocked ==> SleepsOn(s, Schedule(s), p)
    ensures Schedule(s).order == s.order
  {
    hide Within, Distinct, Distance, TicksLeft;
    var t, r := SaveContext(s), Schedule(s);
    SaveRecords(s);
    DispatchRecords(t);
    TicksBound(r);
    if Waits(s, p) {
      SameDistance(s, t, p);
      DispatchCloser(t, p);
    } else if s.procs[p].status == Blocked && s.procs[s.idle].status != Blocked {
      DispatchNotBlocked(t, p);
    }
  }

  lemma DispatchNotBlocked(s: State, p: Addr)
    requires Linked(s) && p in s.procs && s.procs[p].status == Blocked && s.procs[s.idle].status != Blocked
    ensures Dispatch(s).current != Some(p)
  {
    hide Within, Distinct;
  }

  lemma SaveRecords(s: State)
    requires Linked(s)
    ensures var r := SaveContext(s);
            && r.order == s.order && r.cursor == s.cursor && r.idle == s.idle && r.procs.Keys == s.procs.Keys
            && forall a :: a in s.procs ==>
                 && r.procs[a].id == s.procs[a].id && r.procs[a].sleep == s.procs[a].sleep
                 && r.procs[a].status ==
                    (if s.procs[a].status == Running && s.current == Some(a) then Ready else s.procs[a].status)
  {
    hide Within, Distinct;
  }

  lemma SameDistance(s: State, r: State, p: Addr)
    requires Linked(s) && Linked(r) && r.order == s.order && r.cursor == s.cursor && p in s.procs && p in r.procs
    ensures Distance(r, p) == Distance(s, p)
  {
    hide Within;
  }

  // ---------- the operations ----------

  lemma DestroyCurrentFair(s: State, p: Addr)
    requires Linked(s) && s.current.Some? && s.current.value != s.idle && p in s.procs
    ensures var r := DestroyCurrent(s);
            && (Waits(s, p) ==> StillFair(s, r, p, 0))
            && (s.procs[s.idle].status != Blocked ==> SleepsOn(s, r, p))
            && |r.order| == |s.order| - 1
  {
    hide Within, Distinct, Destroy, Schedule, Distance, TicksLeft;
    var t := s.(current := None);
    var d := Destroy(t, s.current.value);
    DestroyRecords(t, s.current.value);
    if p in d.procs {
      ScheduleFair(d, p);
    }
    ScheduleKeys(d);
  }

  lemma ScheduleKeys(s: State)
    requires Linked(s)
    ensures Schedule(s).procs.Keys == s.procs.Keys && Schedule(s).order == s.order
  {
    hide Within, Distinct;
  }

  lemma KillFair(s: State, pid: nat, p: Addr)
    requires Inv(s) && p in s.procs
    ensures Waits(s, p) ==> StillFair(s, Kill(s, pid), p, Wait(s, p))
    ensures SleepsOn(s, Kill(s, pid), p)
    ensures |Kill(s, pid).order| <= |s.order|
  {
    hide Within, Distinct, VmInv, Table, DestroyCurrent, Destroy, Wait;
    TableProc(s.procs, s.nextPid, s.idle);
    if pid != 0 {
      var found := FindPid(s.procs, s.order, pid);
      if found.Some? {
        if s.current == found {
          DestroyCurrentFair(s, p);
        } else {
          DestroyRecords(s, found.value);
        }
      }
    }
  }

  lemma PreemptFair(s: State, p: Addr)
    requires Inv(s) && p in s.procs
    ensures Waits(s, p) ==> StillFair(s, Preempt(s), p, Wait(s, p) - 1)
    ensures SleepsOn(s, Preempt(s), p)
    ensures Preempt(s).order == s.order
  {
    hide Within, Distinct, VmInv, Table, Schedule, Distance, RunsAtMost;
    var c, q := s.current.value, s.procs[s.current.value];
    TableProc(s.procs, s.nextPid, c);
    TableProc(s.procs, s.nextPid, s.idle);
    if q.id == 0 {
      ScheduleFair(s, p);
    } else if q.quantum + 1 >= QUANTUM {
      var t := s.(procs := s.procs[c := q.(quantum := 0, status := Ready)]);
      SameDistance(s, t, p);
      ScheduleFair(t, p);
    } else {
      SameDistance(s, Preempt(s), p);
    }
  }

  /** A timer interrupt brings a waiting process strictly closer to running. */
  lemma TimerFair(s: State, p: Addr)
    requires Inv(s) && Waits(s, p)
    ensures StillFair(s, Timer(s), p, Wait(s, p) - 1)
  {
    hide Within, Distinct, VmInv, Preempt, Distance, Table, RunsAtMost;
    var t := s.(procs := TickAll(s.procs));
    TickKeeps(s);
    SameDistance(s, t, p);
    PreemptFair(t, p);
  }

  lemma TickKeeps(s: State)
    requires Inv(s)
    ensures Inv(s.(procs := TickAll(s.procs)))
  {
    hide Within, Distinct, VmInv, Table;
    TableTick(s.procs, s.nextPid);
  }

  lemma SleepFair(s: State, p: Addr)
    requires Inv(s) && p in s.procs
    ensures Waits(s, p) ==> StillFair(s, Sleep(s), p, Wait(s, p))
    ensures SleepsOn(s, Sleep(s), p) || s.current == Some(p)
    ensures Sleep(s).order == s.order
  {
    hide Within, Distinct, VmInv, Table, Schedule, Distance, RunsAtMost;
    TableProc(s.procs, s.nextPid, s.idle);
    var c, q := s.current.value, s.procs[s.current.value];
    if q.id != 0 {
      if s.gprs[1] > 0 {
        var t := s.(procs := s.procs[c := q.(sleep := s.gprs[1], status := Blocked)]);
        SameDistance(s, t, p);
        ScheduleFair(t, p);
      } else {
        ScheduleFair(s, p);
      }
    } else {
      QuietFair(s, s, p);
    }
  }

  lemma PrintFair(s: State, p: Addr)
    requires Inv(s) && p in s.procs
    ensures Waits(s, p) ==> StillFair(s, PrintString(s), p, Wait(s, p))
    ensures SleepsOn(s, PrintString(s), p)
    ensures |PrintString(s).order| <= |s.order|
  {
    hide Within, Distinct, VmInv, Table, Kill, WalkString, RunsAtMost, Distance;
    var walk := WalkString(s.vm.tables[s.mmu], s.vm.mem, s.gprs[1], WALK);
    var t := s.(out := s.out + walk.text);
    SameDistance(s, t, p);
    QuietFair(s, t, p);
    KillFair(t, s.procs[s.current.value].id, p);
  }

  lemma SystemCallFair(s: State, time: Word, p: Addr)
    requires Inv(s) && p in s.procs && (s.gprs[0] == 0 ==> s.current != Some(s.idle))
    ensures Waits(s, p) ==> StillFair(s, SystemCall(s, time), p, Wait(s, p))
    ensures SleepsOn(s, SystemCall(s, time), p) || s.current == Some(p)
    ensures |SystemCall(s, time).order| <= |s.order|
  {
    hide Within, Distinct, VmInv, Table, RunsAtMost, DestroyCurrent, Schedule, Malloc, Free, Sleep, PrintString, Wait,
      Decimal, StillFair, SleepsOn, Waits, Quiet;
    match s.gprs[0]
    case 0 =>
      IdleAwake(s);
      DestroyCurrentFair(s, p);
      if Waits(s, p) {
        StillFairLater(s, DestroyCurrent(s), p, 0, Wait(s, p));
      }
    case 1 => PrintFair(s, p);
    case 6 => SleepFair(s, p);
    case _ => QuietCalls(s, time, p);
  }

  lemma IdleAwake(s: State)
    requires Inv(s)
    ensures s.idle in s.procs && s.procs[s.idle].status != Blocked
  {
    hide VmInv, Table;
    TableProc(s.procs, s.nextPid, s.idle);
  }

  lemma StillFairLater(s: State, r: State, p: Addr, a: int, b: int)
    requires Linked(r) && a <= b && StillFair(s, r, p, a)
    ensures StillFair(s, r, p, b)
  {
    hide Wait, Distinct;
  }

  /** The calls that leave scheduling alone. */
  lemma QuietCalls(s: State, time: Word, p: Addr)
    requires Inv(s) && p in s.procs && s.gprs[0] !in {0, 1, 6}
    ensures Waits(s, p) ==> StillFair(s, SystemCall(s, time), p, Wait(s, p))
    ensures SleepsOn(s, SystemCall(s, time), p)
    ensures |SystemCall(s, time).order| <= |s.order|
  {
    hide Within, Distinct, VmInv, Table, RunsAtMost, Malloc, Free, Wait, Decimal, StillFair, SleepsOn, Waits;
    if s.gprs[0] == 4 {
      MallocQuiet(s);
    } else if s.gprs[0] == 5 {
      FreeQuiet(s);
    }
    QuietFair(s, SystemCall(s, time), p);
  }

  lemma MallocQuiet(s: State)
    requires Linked(s)
    ensures Quiet(s, Malloc(s))
  {
    hide Within, Distinct;
  }

  lemma FreeQuiet(s: State)
    requires Linked(s)
    ensures Quiet(s, Free(s))
  {
    hide Within, Distinct, FreePages, AnyPresent, FindBlock;
  }

  lemma ExceptionFair(s: State, pageFault: bool, vaddr: Word, p: Addr)
    requires Inv(s) && p in s.procs
    ensures var r := Exception(s, pageFault, vaddr);
            && (Waits(s, p) ==> StillFair(s, r, p, Wait(s, p))) && SleepsOn(s, r, p) && |r.order| <= |s.order|
  {
    hide Within, Distinct, VmInv, Table, RunsAtMost, DestroyCurrent, DemandPage, Wait;
    TableProc(s.procs, s.nextPid, s.idle);
    if (pageFault && Servable(s, s.mmu, vaddr)) || s.mmu == s.idle {
      QuietFair(s, Exception(s, pageFault, vaddr), p);
    } else {
      DestroyCurrentFair(s, p);
    }
  }

  lemma TouchQuiet(s: State, vaddr: Word, kind: AccessKind)
    requires Linked(s) && s.mmu in s.procs
    ensures Touch(s, vaddr, kind).procs == s.procs && Touch(s, vaddr, kind).order == s.order
    ensures Touch(s, vaddr, kind).cursor == s.cursor && Touch(s, vaddr, kind).current == s.current
  {
  }

  /** The scheduling state alone decides the wait. */
  lemma SameWait(s: State, r: State, p: Addr)
    requires Linked(s) && Linked(r) && p in s.procs
    requires r.procs == s.procs && r.order == s.order && r.cursor == s.cursor && r.current == s.current
    ensures Wait(r, p) == Wait(s, p)
  {
    hide Within, Distinct, Distance;
    SameDistance(s, r, p);
  }

  lemma PerformFair(s: State, e: Effect, next: Word, time: Word, p: Addr)
    requires Inv(s) && p in s.procs && (e.Trap? && s.gprs[0] == 0 ==> s.current != Some(s.idle))
    ensures var r := Perform(s, e, next, time);
            && (Waits(s, p) ==> StillFair(s, r, p, Wait(s, p)))
            && (SleepsOn(s, r, p) || s.current == Some(p)) && |r.order| <= |s.order|
  {
    hide Within, Distinct, VmInv, Table, RunsAtMost, Exception, SystemCall, Touch, Translate, StoreAt, Wait, Distance;
    match e
    case Trap =>
      SameWait(s, s.(pc := next), p);
      SystemCallFair(s.(pc := next), time, p);
    case BadInstruction => ExceptionFair(s, false, s.pc, p);
    case ReadWord(addr, dest) => AccessFair(s, e, next, time, p);
    case WriteWord(addr, value) => AccessFair(s, e, next, time, p);
    case _ => QuietFair(s, Perform(s, e, next, time), p);
  }

  lemma AccessFair(s: State, e: Effect, next: Word, time: Word, p: Addr)
    requires Inv(s) && p in s.procs && (e.ReadWord? || e.WriteWord?)
    ensures var r := Perform(s, e, next, time);
            && (Waits(s, p) ==> StillFair(s, r, p, Wait(s, p))) && SleepsOn(s, r, p) && |r.order| <= |s.order|
  {
    hide Within, Distinct, VmInv, Table, RunsAtMost, Exception, Perform, Wait, StillFair, SleepsOn, Waits;
    ExceptionFair(s, true, e.addr, p);
    ExceptionFair(s, false, e.addr, p);
    AccessCases(s, e, next, time);
    if Quiet(s, Perform(s, e, next, time)) {
      QuietFair(s, Perform(s, e, next, time), p);
    }
  }

  /** A memory access raises an exception or leaves scheduling alone. */
  lemma AccessCases(s: State, e: Effect, next: Word, time: Word)
    requires Inv(s) && (e.ReadWord? || e.WriteWord?)
    ensures var r := Perform(s, e, next, time);
            r == Exception(s, true, e.addr) || r == Exception(s, false, e.addr) || Quiet(s, r)
  {
    hide Within, Distinct, VmInv, Table, RunsAtMost, Exception, StoreAt, Translate;
  }

  lemma CycleFair(s: State, time: Word, p: Addr)
    requires Inv(s) && p in s.procs
    requires Fetched(s) == Some(Instr.Syscall) && s.gprs[0] == 0 ==> s.current != Some(s.idle)
    ensures var r := Cycle(s, time);
            && (Waits(s, p) ==> StillFair(s, r, p, Wait(s, p)))
            && (SleepsOn(s, r, p) || s.current == Some(p)) && |r.order| <= |s.order|
  {
    hide Within, Distinct, VmInv, Table, RunsAtMost, Exception, Touch, Perform, Wait, Distance, Decode;
    ExceptionFair(s, true, s.pc, p);
    ExceptionFair(s, false, s.pc, p);
    var access := Translate(s.vm.tables[s.mmu], s.pc, Fetch);
    if access.Granted? && access.paddr < MEMORY {
      var t := Touch(s, s.pc, Fetch);
      TouchQuiet(s, s.pc, Fetch);
      TouchFields(s, s.pc, Fetch);
      TouchKeeps(s, s.pc, Fetch);
      SameWait(s, t, p);
      PerformFair(t, Execute(Decode(s.vm.mem[access.paddr]), s.gprs, Wrap(s.pc + 1)), Wrap(s.pc + 1), time, p);
    } else if access.Granted? {
      QuietFair(s, s.(on := false), p);
    }
  }

  // ---------- fairness over runs ----------

  /** One event: without new processes a waiting process runs, or waits on and is no further away;
      a timer interrupt brings it strictly closer. */
  lemma StepFair(s: State, e: Event, p: Addr)
    requires Inv(s) && Enabled(s, e) && Waits(s, p) && !e.LoadCommand?
    ensures StillFair(s, Step(s, e), p, Wait(s, p) - (if e.TimerInterrupt? then 1 else 0))
    ensures |Step(s, e).order| <= |s.order|
  {
    hide Within, Distinct, VmInv, Table, RunsAtMost, Timer, Cycle, Kill, Wait, Distance, Decode;
    match e
    case TimerInterrupt =>
      TimerFair(s, p);
      TimerOrder(s);
    case CpuCycle(time) => CycleFair(s, time, p);
    case KillCommand(pid) => KillFair(s, pid, p);
    case QuitCommand => QuietFair(s, s.(on := false), p);
    case OtherInput => QuietFair(s, s, p);
  }

  lemma TimerOrder(s: State)
    requires Inv(s)
    ensures Timer(s).order == s.order
  {
    hide Within, Distinct, VmInv, Preempt, Table, RunsAtMost;
    TickKeeps(s);
    PreemptFair(s.(procs := TickAll(s.procs)), s.mmu);
  }

  function Timers(es: seq<Event>): nat {
    if es == [] then 0 else (if es[0].TimerInterrupt? then 1 else 0) + Timers(es[1..])
  }

  /** Process p runs at some point of the run. */
  ghost predicate GetsToRun(s: State, es: seq<Event>, p: Addr)
    requires Possible(s, es)
    decreases |es|
  {
    s.current == Some(p) || (es != [] && GetsToRun(Step(s, es[0]), es[1..], p))
  }

  /** No process is created or destroyed during the run. */
  ghost predicate SameTable(s: State, es: seq<Event>)
    requires Possible(s, es)
    decreases |es|
  {
    es != [] ==> !es[0].LoadCommand? && Step(s, es[0]).order == s.order && SameTable(Step(s, es[0]), es[1..])
  }

  /** No process is created during the run, and p is not destroyed. */
  ghost predicate OnlyOthersDie(s: State, es: seq<Event>, p: Addr)
    requires Possible(s, es)
    decreases |es|
  {
    p in s.procs && (es != [] ==> !es[0].LoadCommand? && OnlyOthersDie(Step(s, es[0]), es[1..], p))
  }

  lemma SameOrderAlive(s: State, r: State, p: Addr)
    requires Linked(s) && Linked(r) && r.order == s.order && p in s.procs
    ensures p in r.procs
  {
    assert p in r.order;
  }

  lemma {:induction false} FairWithin(s: State, es: seq<Event>, p: Addr)
    requires Inv(s) && Possible(s, es) && SameTable(s, es)
    requires Waits(s, p) && Timers(es) >= Wait(s, p)
    ensures GetsToRun(s, es, p)
    decreases |es|
  {
    hide Within, Distinct, Inv, Step, Wait, Enabled;
    InvIsLinked(s);
    if es != [] {
      var t := Step(s, es[0]);
      EnabledFirst(s, es);
      StepKeeps(s, es[0]);
      StepFair(s, es[0], p);
      SameOrderAlive(s, t, p);
      if t.current != Some(p) {
        FairWithin(t, es[1..], p);
      }
    }
  }

  lemma InvIsLinked(s: State)
    requires Inv(s)
    ensures Linked(s)
  {
  }

  lemma EnabledFirst(s: State, es: seq<Event>)
    requires Possible(s, es) && es != []
    ensures Enabled(s, es[0]) && Possible(Step(s, es[0]), es[1..]) && Linked(Step(s, es[0]))
  {
    hide Within, Distinct, Enabled, Step;
  }

  /** Fairness: with N processes in the table and none created or destroyed, a process that is
      ready runs within 5 * N timer interrupts. */
  lemma Fairness(s: State, es: seq<Event>, p: Addr)
    requires Inv(s) && Possible(s, es) && SameTable(s, es)
    requires Waits(s, p) && Timers(es) >= 5 * |s.order|
    ensures GetsToRun(s, es, p)
  {
    hide Within, Distinct, Inv, Wait, Possible, SameTable, GetsToRun;
    InvIsLinked(s);
    WaitBound(s, p);
    FairWithin(s, es, p);
  }

  /** The sum of the waits in tables of n, n - 1, ..., 1 processes. */
  function Budget(n: nat): nat {
    if n == 0 then 0 else QUANTUM * n + Budget(n - 1)
  }

  lemma BudgetStep(n: nat)
    ensures n > 0 ==> Budget(n) == QUANTUM * n + Budget(n - 1)
  {
  }

  lemma {:induction false} BudgetMonotone(m: nat, n: nat)
    requires m <= n
    ensures Budget(m) <= Budget(n)
    decreases n
  {
    if m < n {
      BudgetMonotone(m, n - 1);
    }
  }

  lemma {:induction false} FairDespiteDeaths(s: State, es: seq<Event>, p: Addr)
    requires Inv(s) && Possible(s, es) && OnlyOthersDie(s, es, p)
    requires Waits(s, p) && Timers(es) >= Wait(s, p) + Budget(|s.order| - 1)
    ensures GetsToRun(s, es, p)
    decreases |es|
  {
    hide Within, Distinct, Inv, Step, Wait, Enabled, Budget;
    InvIsLinked(s);
    if es != [] {
      var t := Step(s, es[0]);
      EnabledFirst(s, es);
      StepKeeps(s, es[0]);
      StepFair(s, es[0], p);
      if t.current != Some(p) {
        AfterDeath(s, t, p, if es[0].TimerInterrupt? then 1 else 0);
        FairDespiteDeaths(t, es[1..], p);
      }
    }
  }

  lemma AfterDeath(s: State, t: State, p: Addr, tick: nat)
    requires Linked(s) && Linked(t) && p in s.procs && p in t.procs && tick <= 1
    requires (t.order == s.order && Wait(t, p) + tick <= Wait(s, p)) || |t.order| < |s.order|
    requires s.order != [] && t.order != []
    ensures Wait(t, p) + Budget(|t.order| - 1) + tick <= Wait(s, p) + Budget(|s.order| - 1)
  {
    hide Within, Distinct, Wait;
    if t.order != s.order || Wait(t, p) + tick > Wait(s, p) {
      WaitBound(t, p);
      BudgetMonotone(|t.order|, |s.order| - 1);
      assert Budget(|t.order|) == QUANTUM * |t.order| + Budget(|t.order| - 1);
    }
  }

  /** 5 n + 5 (n - 1) + ... + 5, summed. */
  lemma {:induction false} BudgetSum(n: nat)
    ensures 2 * Budget(n) == 5 * n * (n + 1)
  {
    if n > 0 {
      BudgetSum(n - 1);
    }
  }

  lemma EnoughTimers(t: nat, n: nat)
    requires 2 * t >= 5 * n * (n + 1)
    ensures t >= Budget(n)
  {
    hide Budget;
    BudgetSum(n);
  }

  /** Fairness when other processes may be killed, exit or die: destroying the process under the
      cursor can send p back to the end of the round, but only once for each process that dies. In a
      table of N processes p runs within 5 N + 5 (N - 1) + ... + 5 timer interrupts. */
  lemma FairnessWithDeaths(s: State, es: seq<Event>, p: Addr)
    requires Inv(s) && Possible(s, es) && OnlyOthersDie(s, es, p)
    requires Waits(s, p) && 2 * Timers(es) >= 5 * |s.order| * (|s.order| + 1)
    ensures GetsToRun(s, es, p)
  {
    hide Within, Distinct, Inv, Wait, Possible, OnlyOthersDie, GetsToRun, Budget;
    EnoughTimers(Timers(es), |s.order|);
    InvIsLinked(s);
    WaitBound(s, p);
    BudgetStep(|s.order|);
    FairDespiteDeaths(s, es, p);
  }

  // ---------- sleeping ----------

  /** A sleeper counts timer interrupts and nothing else. */
  lemma StepSleeper(s: State, e: Event, p: Addr)
    requires Inv(s) && Enabled(s, e) && p in s.procs && s.procs[p].status == Blocked && p in Step(s, e).procs
    ensures var q := Step(s, e).procs[p];
            if e.TimerInterrupt? && s.procs[p].sleep == 1 then q.status != Blocked && q.sleep == 0
            else q.status == Blocked && q.sleep == s.procs[p].sleep - (if e.TimerInterrupt? then 1 else 0)
  {
    hide Within, Distinct, VmInv, Table, Timer, Cycle, Kill, Decode, Create;
    assert s.current != Some(p);
    match e
    case TimerInterrupt => TimerSleeper(s, p);
    case CpuCycle(time) => CycleFair(s, time, p);
    case KillCommand(pid) => KillFair(s, pid, p);
    case LoadCommand(image, isIdle) =>
      if image != [] {
        CreateFields(s, image, isIdle);
      }
    case _ =>
  }

  lemma TimerSleeper(s: State, p: Addr)
    requires Inv(s) && p in s.procs && s.procs[p].status == Blocked
    ensures p in Timer(s).procs
    ensures var q := Timer(s).procs[p];
            if s.procs[p].sleep == 1 then q.status != Blocked && q.sleep == 0
            else q.status == Blocked && q.sleep == s.procs[p].sleep - 1
  {
    hide Within, Distinct, VmInv, Preempt, Table;
    var t := s.(procs := TickAll(s.procs));
    TableProc(s.procs, s.nextPid, p);
    TickKeeps(s);
    PreemptSleeps(t, p);
    PreemptFair(t, p);
  }

  /** Preemption does not put anybody to sleep. */
  lemma PreemptSleeps(s: State, p: Addr)
    requires Inv(s) && p in s.procs
    ensures p in Preempt(s).procs && Preempt(s).procs[p].sleep == s.procs[p].sleep
    ensures s.procs[p].status != Blocked ==> Preempt(s).procs[p].status != Blocked
  {
    hide Within, Distinct, VmInv, Table, RunsAtMost, Schedule;
    var c, q := s.current.value, s.procs[s.current.value];
    if q.id == 0 {
      ScheduleSleeps(s, p);
    } else if q.quantum + 1 >= QUANTUM {
      ScheduleSleeps(s.(procs := s.procs[c := q.(quantum := 0, status := Ready)]), p);
    }
  }

  lemma ScheduleSleeps(s: State, p: Addr)
    requires Linked(s) && p in s.procs
    ensures p in Schedule(s).procs && Schedule(s).procs[p].sleep == s.procs[p].sleep
    ensures s.procs[p].status != Blocked ==> Schedule(s).procs[p].status != Blocked
  {
    hide Within, Distinct, SaveContext, Dispatch;
    SaveRecords(s);
    DispatchRecords(SaveContext(s));
  }

  /** Process p is alive throughout the run. */
  ghost predicate Survives(s: State, es: seq<Event>, p: Addr)
    requires Possible(s, es)
    decreases |es|
  {
    p in s.procs && (es != [] ==> Survives(Step(s, es[0]), es[1..], p))
  }

  /** A sleep of n ends with exactly the n-th timer interrupt: with fewer the process is still
      blocked and has the rest of its ticks left, and the n-th makes it ready. */
  lemma {:induction false} SleepExactly(s: State, es: seq<Event>, p: Addr)
    requires Inv(s) && Possible(s, es) && Survives(s, es, p) && s.procs[p].status == Blocked
    requires Timers(es) <= s.procs[p].sleep
    requires Timers(es) == s.procs[p].sleep ==> es != [] && es[|es| - 1].TimerInterrupt?
    ensures p in Run(s, es).procs
    ensures var q := Run(s, es).procs[p];
            if Timers(es) < s.procs[p].sleep then q.status == Blocked && q.sleep == s.procs[p].sleep - Timers(es)
            else q.status != Blocked && q.sleep == 0
    decreases |es|
  {
    hide Within, Distinct, Inv, Step, Enabled;
    if es != [] {
      EnabledFirst(s, es);
      StepKeeps(s, es[0]);
      StepSleeper(s, es[0], p);
      var t, k := Step(s, es[0]), s.procs[p].sleep;
      if es[0].TimerInterrupt? && k == 1 {
        NoMoreTimers(es);
      } else {
        SleepExactly(t, es[1..], p);
      }
    }
  }

  lemma NoMoreTimers(es: seq<Event>)
    requires es != [] && es[0].TimerInterrupt? && Timers(es) <= 1 && es[|es| - 1].TimerInterrupt?
    ensures |es| == 1
  {
    if |es| > 1 {
      LastTimer(es[1..]);
    }
  }

  lemma {:induction false} LastTimer(es: seq<Event>)
    requires es != [] && es[|es| - 1].TimerInterrupt?
    ensures Timers(es) >= 1
    decreases |es|
  {
    if |es| > 1 {
      LastTimer(es[1..]);
    }
  }

  /** The sleep call of a user process leaves it blocked with the ticks of register 1, or, with none,
      ready. */
  lemma SleepCall(s: State)
    requires Inv(s) && s.procs[s.mmu].id != 0
    ensures var r := Sleep(s);
            && Inv(r) && s.mmu in r.procs
            && (s.gprs[1] > 0 ==> r.procs[s.mmu].status == Blocked && r.procs[s.mmu].sleep == s.gprs[1])
            && (s.gprs[1] == 0 ==> r.procs[s.mmu].status != Blocked && r.procs[s.mmu].sleep == 0)
  {
    hide Within, Distinct, VmInv, Table, RunsAtMost, Schedule;
    var c, p := s.mmu, s.procs[s.mmu];
    TableProc(s.procs, s.nextPid, c);
    TableProc(s.procs, s.nextPid, s.idle);
    SleepKeeps(s);
    if s.gprs[1] > 0 {
      ScheduleLeaves(s.(procs := s.procs[c := p.(sleep := s.gprs[1], status := Blocked)]), c);
    } else {
      ScheduleLeaves(s, c);
    }
  }

  lemma ScheduleLeaves(s: State, c: Addr)
    requires Linked(s) && c in s.procs && s.procs[s.idle].status != Blocked
    ensures var r := Schedule(s);
            && c in r.procs && r.procs[c].sleep == s.procs[c].sleep
            && (s.procs[c].status == Blocked <==> r.procs[c].status == Blocked)
  {
    hide Within, Distinct, Dispatch, SaveContext;
    SaveRecords(s);
    DispatchRecords(SaveContext(s));
    if s.procs[c].status == Blocked {
      DispatchNotBlocked(SaveContext(s), c);
    }
  }

  /** The running user process is about to make the sleep call. */
  ghost predicate AboutToSleep(s: State) {
    && Linked(s) && s.mmu in s.procs && s.procs[s.mmu].id != 0
    && Fetched(s) == Some(Instr.Syscall) && s.gprs[0] == 6
  }

  lemma SleepCycle(s: State, time: Word)
    requires Inv(s) && AboutToSleep(s)
    ensures var t := Touch(s, s.pc, Fetch).(pc := Wrap(s.pc + 1));
            Inv(t) && t.procs == s.procs && t.mmu == s.mmu && t.gprs == s.gprs && Cycle(s, time) == Sleep(t)
  {
    hide Within, Distinct, VmInv, Table, RunsAtMost, Sleep, Translate, Decode;
    TouchKeeps(s, s.pc, Fetch);
    TouchFields(s, s.pc, Fetch);
  }

  /** From the call to the awakening: a process that asks for n > 0 ticks is blocked by that call, and
      through any events it survives it stays blocked until exactly the n-th timer interrupt. */
  lemma SleepFromCall(s: State, time: Word, es: seq<Event>)
    requires Inv(s) && AboutToSleep(s) && s.gprs[1] > 0 && Enabled(s, CpuCycle(time))
    requires SleepsThrough(Step(s, CpuCycle(time)), es, s.mmu, s.gprs[1])
    ensures s.mmu in Run(Step(s, CpuCycle(time)), es).procs
    ensures var q := Run(Step(s, CpuCycle(time)), es).procs[s.mmu];
            if Timers(es) < s.gprs[1] then q.status == Blocked && q.sleep == s.gprs[1] - Timers(es)
            else q.status != Blocked && q.sleep == 0
  {
    hide Within, Inv, Possible, Survives, Run, Sleep, Touch, Enabled, Cycle;
    SleepCycle(s, time);
    SleepCall(Touch(s, s.pc, Fetch).(pc := Wrap(s.pc + 1)));
    SleepExactly(Step(s, CpuCycle(time)), es, s.mmu);
  }

  /** A possible run that p survives, with at most n timer interrupts, the n-th being its end. */
  ghost predicate SleepsThrough(s: State, es: seq<Event>, p: Addr, n: nat) {
    && Possible(s, es) && Survives(s, es, p) && Timers(es) <= n
    && (Timers(es) == n ==> es != [] && es[|es| - 1].TimerInterrupt?)
  }

  // ---------- what is dispatched ----------

  /** No process of the table other than idle ones can run. */
  ghost predicate NobodyEligible(s: State) {
    forall a :: a in s.procs ==> !Eligible(s.procs[a])
  }

  /** A dispatch, exactly: the first eligible process behind the cursor, with nobody eligible skipped, or
      the idle process when nobody is eligible; its record in the processor, and the cursor on it. */
  lemma DispatchExactly(s: State)
    requires Linked(s)
    ensures var r, start := Dispatch(s), CursorIndex(s);
            && r.current.Some? && r.current.value in s.procs && r.mmu == r.current.value
            && r.gprs == s.procs[r.mmu].gprs && r.pc == s.procs[r.mmu].pc && r.procs[r.mmu].status == Running
            && (if NobodyEligible(s) then r.mmu == s.idle
                else exists d :: 1 <= d <= |s.order| && r.mmu == At(s.order, start, d) && r.cursor == Some(r.mmu)
                       && Eligible(s.procs[r.mmu]) && forall e :: 1 <= e < d ==>
                          !Eligible(s.procs[At(s.order, start, e)]))
  {
    hide Within, IndexOf, Search, At;
    var start := CursorIndex(s);
    var d := Search(s.procs, s.order, start, 1);
    if d > |s.order| {
      forall a | a in s.procs ensures !Eligible(s.procs[a]) {
        StepsReach(s.order, start, a);
        assert !Eligible(s.procs[At(s.order, start, Steps(s.order, start, a))]);
      }
    } else {
      assert Eligible(s.procs[At(s.order, start, d)]);
    }
  }

  // ---------- counted in schedule calls ----------

  /** n calls of the scheduler, one after the other. */
  ghost function Scheduled(s: State, n: nat): (r: State)
    requires Linked(s)
    ensures Linked(r)
    decreases n
  {
    if n == 0 then s else Scheduled(Schedule(s), n - 1)
  }

  lemma ScheduleCloser(s: State, p: Addr)
    requires Linked(s) && p in s.procs && Eligible(s.procs[p])
    ensures var r := Schedule(s);
            && p in r.procs && Eligible(r.procs[p]) && |r.order| == |s.order|
            && (r.current == Some(p) || Distance(r, p) < Distance(s, p))
  {
    hide Within, Distinct, Dispatch, SaveContext, Distance;
    SaveRecords(s);
    DispatchRecords(SaveContext(s));
    DispatchCloser(SaveContext(s), p);
    SameDistance(s, SaveContext(s), p);
  }

  /** With N processes in the table, one that can run is dispatched within N calls of the scheduler. */
  lemma {:induction false} DispatchedWithin(s: State, p: Addr, n: nat)
    requires Linked(s) && p in s.procs && Eligible(s.procs[p]) && Distance(s, p) <= n
    ensures exists k :: 1 <= k <= n && Scheduled(s, k).current == Some(p)
    decreases n
  {
    hide Within, Schedule, Distance, Linked;
    ScheduleCloser(s, p);
    assert Scheduled(s, 1) == Schedule(s) by {
      assert Scheduled(Schedule(s), 0) == Schedule(s);
    }
    if Schedule(s).current != Some(p) {
      DispatchedWithin(Schedule(s), p, n - 1);
      var k :| 1 <= k <= n - 1 && Scheduled(Schedule(s), k).current == Some(p);
      assert Scheduled(s, k + 1) == Scheduled(Schedule(s), k);
    }
  }

  lemma DispatchedWithinTable(s: State, p: Addr)
    requires Linked(s) && p in s.procs && Eligible(s.procs[p])
    ensures exists k :: 1 <= k <= |s.order| && Scheduled(s, k).current == Some(p)
  {
    hide Within, Schedule, Distance, Linked, Scheduled;
    DispatchedWithin(s, p, |s.order|);
  }
}
