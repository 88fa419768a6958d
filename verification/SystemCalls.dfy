/** The system calls by their numbers: what each does to the process that makes it, in any state of the
    kernel. */
module SystemCalls {
  import opened Options
  import opened Isa
  import opened Paging
  import opened AddressSpaces
  import opened Kernel
  import opened KernelInvariant
  import opened Isolation
  import opened Survival
  import opened Scheduling
  import opened InstructionSet
  import opened MachineCycle

  /** The running process is m, at a system-call instruction, with this number in register 0; the clock
      device would answer `time`. */
  ghost predicate Calls(s: State, m: Private, time: Word, number: Word) {
    && Inv(s) && Enabled(s, CpuCycle(time)) && PrivateOf(s, s.mmu) == m && PagesOk(m.pages) && m.gprs[0] == number
    && exists w: Word :: 512 * 63 <= w < 512 * 64 && Holds(m, m.pc, w)
  }

  /** After the call everybody is alive, the terminal has received `text`, and the caller is `after`, on to
      the next instruction. */
  ghost predicate Answers(s: State, m: Private, time: Word, text: seq<Word>, after: Private)
    requires Enabled(s, CpuCycle(time))
  {
    var r := Step(s, CpuCycle(time));
    && r.procs.Keys == s.procs.Keys && s.mmu in r.procs && r.on && r.out == s.out + text
    && PrivateOf(r, s.mmu) == after.(pc := (m.pc + 1) % 65536)
  }

  lemma CallTraps(m: Private, w: Word)
    requires PagesOk(m.pages) && 512 * 63 <= w < 512 * 64 && Holds(m, m.pc, w)
    ensures PrivateCycle(m) == Traps(m.(pc := (m.pc + 1) % 65536))
  {
    hide PrivateCycle, Decode, Execute;
    OtherCycle(m, w);
    var opcode, x, y, z := EveryWord(w);
    assert opcode == 63;
    RegisterInstruction(opcode, x, y, z, m.gprs, (m.pc + 1) % 65536);
  }

  lemma CallState(s: State, m: Private, time: Word, number: Word)
    requires Calls(s, m, time, number)
    ensures Inv(s) && Enabled(s, CpuCycle(time)) && Linked(s) && s.mmu in s.procs && PrivateOf(s, s.mmu) == m
    ensures PagesOk(m.pages) && m.gprs[0] == number && PrivateCycle(m) == Traps(m.(pc := (m.pc + 1) % 65536))
    ensures Step(s, CpuCycle(time)).procs.Keys <= s.procs.Keys
  {
    var w: Word :| 512 * 63 <= w < 512 * 64 && Holds(m, m.pc, w);
    hide Cycle, PrivateCycle, Holds, VmInv, Table;
    CallTraps(m, w);
  }

  lemma CallAnswers(s: State, m: Private, time: Word, number: Word)
    requires Calls(s, m, time, number) && number > 1
    ensures Enabled(s, CpuCycle(time)) && PagesOk(m.pages)
    ensures Answers(s, m, time, CallText(m.gprs, m.pages), PrivateCall(m.(pc := (m.pc + 1) % 65536), time))
  {
    hide Inv, Step, Linked, Enabled, PrivateCycle, PrivateCall, CallText, Calls, PrivateOf, LastCycle;
    CallState(s, m, time, number);
    CallSurvived(s, m, time, number);
    CallPrints(s, m, time, number);
    StepStaysOn(s, CpuCycle(time));
    CallPrivate(s, m, time, number);
    CallPc(m.(pc := (m.pc + 1) % 65536), time);
  }

  lemma CallPrints(s: State, m: Private, time: Word, number: Word)
    requires Calls(s, m, time, number)
    ensures Enabled(s, CpuCycle(time)) && PagesOk(m.pages)
    ensures Step(s, CpuCycle(time)).out == s.out + CallText(m.gprs, m.pages)
  {
    hide Inv, Step, Linked, Enabled, PrivateCycle, CallText, Calls, PrivateOf;
    CallState(s, m, time, number);
    StepOutput(s, CpuCycle(time));
  }

  lemma CallPrivate(s: State, m: Private, time: Word, number: Word)
    requires Calls(s, m, time, number) && number > 1
    ensures Enabled(s, CpuCycle(time)) && s.mmu in Step(s, CpuCycle(time)).procs
    ensures PrivateOf(Step(s, CpuCycle(time)), s.mmu) == PrivateCall(m.(pc := (m.pc + 1) % 65536), time)
  {
    hide Inv, Step, Linked, Enabled, PrivateCycle, PrivateCall, Calls, PrivateOf, LastCycle;
    CallState(s, m, time, number);
    CallSurvived(s, m, time, number);
    StepStaysOn(s, CpuCycle(time));
    StepIsolated(s, CpuCycle(time), s.mmu);
  }

  lemma CallSurvived(s: State, m: Private, time: Word, number: Word)
    requires Calls(s, m, time, number) && number > 1
    ensures Enabled(s, CpuCycle(time)) && Linked(s) && s.mmu in s.procs && !LastCycle(s)
    ensures Step(s, CpuCycle(time)).procs.Keys == s.procs.Keys
  {
    CallState(s, m, time, number);
    hide Within, Distinct, Inv, Step, Linked, Enabled, PrivateCycle, FreeFrame, Calls, PrivateOf, PrivateWalk;
    forall a | a in s.procs ensures a in Step(s, CpuCycle(time)).procs {
      StepSurvivors(s, CpuCycle(time), a);
    }
  }

  lemma AnswerIs(s: State, m: Private, time: Word, number: Word, text: seq<Word>, after: Private)
    requires Calls(s, m, time, number) && number > 1 && PagesOk(m.pages) && CallText(m.gprs, m.pages) == text
    requires PrivateCall(m.(pc := (m.pc + 1) % 65536), time) == after.(pc := (m.pc + 1) % 65536)
    ensures Enabled(s, CpuCycle(time)) && Answers(s, m, time, text, after)
  {
    hide Inv, Enabled, Calls, Step, PrivateOf, PrivateCall, CallText;
    CallState(s, m, time, number);
    CallAnswers(s, m, time, number);
  }

  lemma Texts(m: Private)
    requires PagesOk(m.pages)
    ensures m.gprs[0] == 2 ==> CallText(m.gprs, m.pages) == [10]
    ensures m.gprs[0] == 3 ==> CallText(m.gprs, m.pages) == Decimal(m.gprs[1])
    ensures m.gprs[0] > 3 ==> CallText(m.gprs, m.pages) == []
  {
    hide Decimal, PrivateWalk;
  }

  lemma CallPc(m: Private, time: Word)
    ensures PrivateCall(m, time).pc == m.pc
  {
    hide AnyMapped, FindBlock;
  }

  lemma Number(s: State, m: Private, time: Word, number: Word)
    requires Calls(s, m, time, number)
    ensures m.gprs[0] == number && PagesOk(m.pages)
  {
  }

  /** The program counter of `after` does not matter to an answer. */
  lemma Renamed(s: State, m: Private, time: Word, after: Private, after': Private)
    requires Enabled(s, CpuCycle(time)) && Answers(s, m, time, [], after) && after'.(pc := after.pc) == after
    ensures Answers(s, m, time, [], after')
  {
    hide Enabled, Step, PrivateOf;
  }

  /** 0: the process is gone, and nothing else is. */
  lemma ExitCall(s: State, m: Private, time: Word)
    requires Calls(s, m, time, 0) && s.mmu != s.idle
    ensures Enabled(s, CpuCycle(time))
    ensures var r := Step(s, CpuCycle(time)); r.procs.Keys == s.procs.Keys - {s.mmu} && r.on && r.out == s.out
  {
    CallState(s, m, time, 0);
    hide Within, Distinct, View, VmInv, Table, RunsAtMost, PrivateCycle, Step, FreeFrame, Calls, PrivateOf;
    var e := CpuCycle(time);
    StepOutput(s, e);
    assert s.out + [] == s.out;
    StepStaysOn(s, e);
    forall a | a in s.procs ensures a in Step(s, e).procs <==> a != s.mmu {
      StepSurvivors(s, e, a);
    }
  }

  /** 2: a line feed. */
  lemma NewLineCall(s: State, m: Private, time: Word)
    requires Calls(s, m, time, 2)
    ensures Enabled(s, CpuCycle(time)) && Answers(s, m, time, [10], m)
  {
    hide Inv, Enabled, Calls, Step, PrivateOf, Answers, CallText;
    Number(s, m, time, 2);
    Texts(m);
    AnswerIs(s, m, time, 2, [10], m);
  }

  /** 3: the decimal digits of register 1. */
  lemma NumberCall(s: State, m: Private, time: Word) returns (digits: seq<Word>)
    requires Calls(s, m, time, 3)
    ensures Enabled(s, CpuCycle(time)) && Answers(s, m, time, digits, m) && IsDecimal(digits, m.gprs[1])
  {
    hide Inv, Enabled, Calls, Step, PrivateOf, Answers, CallText, Decimal, IsDecimal;
    Number(s, m, time, 3);
    Texts(m);
    digits := Decimal(m.gprs[1]);
    DecimalIs(m.gprs[1]);
    AnswerIs(s, m, time, 3, digits, m);
  }

  /** The characters of a number, without leading zeros: '0' is 48. */
  ghost predicate IsDecimal(digits: seq<Word>, n: nat)
    decreases |digits|
  {
    digits != [] &&
    var last := digits[|digits| - 1];
    48 <= last <= 57 &&
    if |digits| == 1 then n == last - 48
    else n >= 10 && n % 10 == last - 48 && IsDecimal(digits[..|digits| - 1], n / 10)
  }

  lemma {:induction false} DecimalIs(n: nat)
    ensures IsDecimal(Decimal(n), n)
  {
    if n >= 10 {
      DecimalIs(n / 10);
      assert Decimal(n)[..|Decimal(n)| - 1] == Decimal(n / 10);
    }
  }

  /** 4: malloc. No words, no block; else as many pages as the words need, behind all pages in use, with
      success in register 1 and the address in register 2. Memory itself is not touched. */
  lemma MallocCall(s: State, m: Private, time: Word, k: nat)
    requires Calls(s, m, time, 4) && 16 * (k - 1) < m.gprs[1] <= 16 * k
    ensures Enabled(s, CpuCycle(time))
    ensures Answers(s, m, time, [],
              if m.gprs[1] == 0 then m
              else
                var at := m.numPages * 16 % 65536;
                m.(gprs := m.gprs[1 := 1][2 := at], numPages := (m.numPages + k) % 65536,
                   blocks := m.blocks + [Block(at, k)]))
  {
    hide Inv, Enabled, Calls, Step, PrivateOf, Answers, PrivateMalloc, PrivateFree, CallText;
    var next := m.(pc := (m.pc + 1) % 65536);
    Number(s, m, time, 4);
    Texts(m);
    MallocIs(next, k);
    AnswerIs(s, m, time, 4, [], PrivateMalloc(next));
    Renamed(s, m, time, PrivateMalloc(next),
      if m.gprs[1] == 0 then m
      else
        var at := m.numPages * 16 % 65536;
        m.(gprs := m.gprs[1 := 1][2 := at], numPages := (m.numPages + k) % 65536, blocks := m.blocks + [Block(at, k)]));
  }

  lemma MallocIs(m: Private, k: nat)
    requires 16 * (k - 1) < m.gprs[1] <= 16 * k
    ensures PrivateMalloc(m) ==
            if m.gprs[1] == 0 then m
            else
              var at := m.numPages * 16 % 65536;
              m.(gprs := m.gprs[1 := 1][2 := at], numPages := (m.numPages + k) % 65536,
                 blocks := m.blocks + [Block(at, k)])
  {
    PagesFor(m.gprs[1], k);
    hide PagesNeeded;
    if m.gprs[1] == 0 {
      assert m.gprs[1 := 0] == m.gprs;
    }
  }

  lemma PagesFor(words: nat, k: nat)
    requires 16 * (k - 1) < words <= 16 * k
    ensures PagesNeeded(words) == k
  {
  }

  /** 5: free of an address at which a block starts: the first such block is gone with its pages. */
  lemma FreeBlockCall(s: State, m: Private, time: Word, i: nat)
    requires Calls(s, m, time, 5) && i < |m.blocks| && m.blocks[i].start == m.gprs[1]
    requires forall j :: 0 <= j < i ==> m.blocks[j].start != m.gprs[1]
    ensures Enabled(s, CpuCycle(time))
    ensures var first := m.gprs[1] / 16;
            Answers(s, m, time, [],
              m.(gprs := m.gprs[1 := 1], blocks := m.blocks[..i] + m.blocks[i + 1..],
                 pages := map v: nat | v in m.pages && !(first <= v < first + m.blocks[i].pages) :: m.pages[v]))
  {
    hide Inv, Enabled, Calls, Step, PrivateOf, Answers, PrivateMalloc, PrivateFree, CallText;
    var next := m.(pc := (m.pc + 1) % 65536);
    Number(s, m, time, 5);
    Texts(m);
    FreeBlockIs(next, i);
    AnswerIs(s, m, time, 5, [], PrivateFree(next));
    var first := m.gprs[1] / 16;
    Renamed(s, m, time, PrivateFree(next),
      m.(gprs := m.gprs[1 := 1], blocks := m.blocks[..i] + m.blocks[i + 1..],
         pages := map v: nat | v in m.pages && !(first <= v < first + m.blocks[i].pages) :: m.pages[v]));
  }

  lemma FreeBlockIs(m: Private, i: nat)
    requires i < |m.blocks| && m.blocks[i].start == m.gprs[1]
    requires forall j :: 0 <= j < i ==> m.blocks[j].start != m.gprs[1]
    ensures var first := m.gprs[1] / 16;
            PrivateFree(m) ==
              m.(gprs := m.gprs[1 := 1], blocks := m.blocks[..i] + m.blocks[i + 1..],
                 pages := map v: nat | v in m.pages && !(first <= v < first + m.blocks[i].pages) :: m.pages[v])
  {
    hide AnyMapped;
    assert FindBlock(m.blocks, m.gprs[1]) == i;
  }

  /** 5: free of any other address: the page it lies in is given back, if it is there. */
  lemma FreePageCall(s: State, m: Private, time: Word)
    requires Calls(s, m, time, 5) && forall b :: b in m.blocks ==> b.start != m.gprs[1]
    ensures Enabled(s, CpuCycle(time))
    ensures var page := m.gprs[1] / 16;
            Answers(s, m, time, [],
              m.(gprs := m.gprs[1 := if page in m.pages then 1 else 0], pages := m.pages - {page}))
  {
    hide Inv, Enabled, Calls, Step, PrivateOf, Answers, PrivateMalloc, PrivateFree, CallText;
    var next := m.(pc := (m.pc + 1) % 65536);
    Number(s, m, time, 5);
    Texts(m);
    FreePageIs(next);
    AnswerIs(s, m, time, 5, [], PrivateFree(next));
    var page := m.gprs[1] / 16;
    Renamed(s, m, time, PrivateFree(next),
      m.(gprs := m.gprs[1 := if page in m.pages then 1 else 0], pages := m.pages - {page}));
  }

  lemma FreePageIs(m: Private)
    requires forall b :: b in m.blocks ==> b.start != m.gprs[1]
    ensures var page := m.gprs[1] / 16;
            PrivateFree(m) == m.(gprs := m.gprs[1 := if page in m.pages then 1 else 0], pages := m.pages - {page})
  {
    assert FindBlock(m.blocks, m.gprs[1]) == |m.blocks|;
    assert Without(m.pages, m.gprs[1] / 16, 1) == m.pages - {m.gprs[1] / 16};
  }

  /** 6: sleep, as module Scheduling describes it. */
  lemma SleepCallNumber(s: State, m: Private, time: Word)
    requires Calls(s, m, time, 6) && s.mmu in s.procs && s.procs[s.mmu].id != 0
    ensures AboutToSleep(s)
  {
    CallState(s, m, time, 6);
    hide Within, Distinct, View, VmInv, Table, RunsAtMost, PrivateCycle, Calls, Fetched;
    TrapIsFetched(s);
  }

  lemma TrapIsFetched(s: State)
    requires Inv(s) && PrivateCycle(PrivateOf(s, s.mmu)).Traps?
    ensures Fetched(s) == Some(Instr.Syscall)
  {
    hide Within, Distinct, Table, RunsAtMost;
    ReadView(s.vm, s.mmu, s.pc, Fetch);
  }

  /** 7: the answer of the clock in register 1. */
  lemma ClockCall(s: State, m: Private, time: Word)
    requires Calls(s, m, time, 7)
    ensures Enabled(s, CpuCycle(time)) && Answers(s, m, time, [], m.(gprs := m.gprs[1 := time]))
  {
    hide Inv, Enabled, Calls, Step, PrivateOf, Answers, PrivateMalloc, PrivateFree, CallText;
    Number(s, m, time, 7);
    Texts(m);
    AnswerIs(s, m, time, 7, [], m.(gprs := m.gprs[1 := time]));
  }

  /** 8 and more: nothing. */
  lemma UnknownCall(s: State, m: Private, time: Word, number: Word)
    requires Calls(s, m, time, number) && number > 7
    ensures Enabled(s, CpuCycle(time)) && Answers(s, m, time, [], m)
  {
    hide Inv, Enabled, Calls, Step, PrivateOf, Answers, PrivateMalloc, PrivateFree, CallText;
    Number(s, m, time, number);
    Texts(m);
    AnswerIs(s, m, time, number, [], m);
  }
}
