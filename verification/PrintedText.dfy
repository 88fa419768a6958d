/** Text in memory, from the moment it is there to the call that prints it. */
module PrintedText {
  import opened Isa
  import opened Paging
  import opened AddressSpaces
  import opened Kernel
  import opened KernelInvariant
  import opened FrameAccounting
  import opened Isolation
  import opened Survival

  // ---------- the print call ----------

  /** The printer, started at a zero-terminated text, shows the text and ends there. */
  lemma {:induction false} WalkShows(pages: map<nat, seq<Word>>, vaddr: Word, text: seq<Word>, n: nat)
    requires PagesOk(pages) && HoldsText(pages, vaddr, text) && n > |text|
    ensures PrivateWalk(pages, vaddr, n) == Walk(text, Terminated)
    decreases n
  {
    hide HoldsText;
    FirstWord(pages, vaddr, text);
    if text != [] {
      WalkShows(pages, vaddr + 1, text[1..], n - 1);
      assert text == [text[0]] + text[1..];
    }
  }

  lemma TextFits(pages: map<nat, seq<Word>>, vaddr: Word, text: seq<Word>)
    requires HoldsText(pages, vaddr, text)
    ensures |text| < WALK
  {
  }

  /** Any execution of the print call whose address holds a text: exactly the text comes out, and the
      process and the machine go on. */
  lemma PrintCall(s: State, time: Word, text: seq<Word>)
    requires Inv(s) && Enabled(s, CpuCycle(time)) && PrivateCycle(PrivateOf(s, s.mmu)).Traps?
    requires var m := PrivateOf(s, s.mmu); m.gprs[0] == 1 && HoldsText(m.pages, m.gprs[1], text)
    ensures var r := Step(s, CpuCycle(time)); r.out == s.out + text && r.on && s.mmu in r.procs
  {
    hide Within, Distinct, View, VmInv, Table, RunsAtMost, PrivateCycle, HoldsText, Cycle, PrivateWalk, FreeFrame;
    var m := PrivateOf(s, s.mmu);
    TrapKeeps(m);
    TextFits(m.pages, m.gprs[1], text);
    WalkShows(m.pages, m.gprs[1], text, WALK);
    StepOutput(s, CpuCycle(time));
    StepSurvivors(s, CpuCycle(time), s.mmu);
    StepStaysOn(s, CpuCycle(time));
  }

  /** The system call instruction itself moves the program counter and nothing else. */
  lemma TrapKeeps(m: Private)
    requires PagesOk(m.pages) && PrivateCycle(m).Traps?
    ensures PrivateCycle(m) == Traps(m.(pc := Wrap(m.pc + 1)))
  {
    hide Decode;
  }

  // ---------- words that stay ----------

  /** The next cycle writes the word at x, or gives back its page. */
  ghost predicate Spoils(m: Private, x: Word)
    requires PagesOk(m.pages)
  {
    && Page(m.pc) in m.pages
    && match Execute(Decode(WordAt(m.pages, m.pc)), m.gprs, Wrap(m.pc + 1))
       case WriteWord(addr, _) => addr == x
       case Trap => m.gprs[0] == 5 && Page(x) in m.pages && Page(x) !in PrivateFree(m).pages
       case _ => false
  }

  ghost predicate HasWord(pages: map<nat, seq<Word>>, x: Word, w: Word)
    requires PagesOk(pages)
  {
    Page(x) in pages && WordAt(pages, x) == w
  }

  lemma StoreKept(pages: map<nat, seq<Word>>, addr: Word, value: Word, x: Word, w: Word)
    requires PagesOk(pages) && Page(addr) in pages && HasWord(pages, x, w) && addr != x
    ensures HasWord(PagesWith(pages, addr, value), x, w)
  {
  }

  lemma FreeKept(m: Private, x: Word, w: Word)
    requires PagesOk(m.pages) && HasWord(m.pages, x, w) && Page(x) in PrivateFree(m).pages
    ensures PagesOk(PrivateFree(m).pages) && HasWord(PrivateFree(m).pages, x, w)
  {
    hide AnyMapped, FindBlock;
  }

  lemma SameFree(m: Private, pc: Word)
    ensures PrivateFree(m.(pc := pc)).pages == PrivateFree(m).pages
  {
    hide FindBlock, AnyMapped;
  }

  /** A word stays where it is through every cycle that does not spoil it. */
  lemma WordKept(m: Private, time: Word, x: Word, w: Word)
    requires PagesOk(m.pages) && HasWord(m.pages, x, w) && !Spoils(m, x)
    ensures HasWord(Advance(m, time).pages, x, w)
  {
    hide Decode, WordAt, PagesWith, PrivateFree, PrivateMalloc, Execute, HasWord;
    assert Page(x) in m.pages && WordAt(m.pages, x) == w by {
      Unfolded(m.pages, x, w);
    }
    if Page(m.pc) in m.pages {
      var e := Execute(Decode(WordAt(m.pages, m.pc)), m.gprs, Wrap(m.pc + 1));
      match e
      case WriteWord(addr, value) =>
        if Page(addr) in m.pages {
          StoreKept(m.pages, addr, value, x, w);
        } else {
          PageAdded(m.pages, addr, x, w);
        }
      case Trap =>
        var r := m.(pc := Wrap(m.pc + 1));
        SameFree(m, Wrap(m.pc + 1));
        MallocPages(r);
        if m.gprs[0] == 5 {
          FreeKept(r, x, w);
        }
      case ReadWord(addr, _) =>
        if Page(addr) !in m.pages {
          PageAdded(m.pages, addr, x, w);
        }
      case _ =>
    } else {
      PageAdded(m.pages, m.pc, x, w);
    }
  }

  lemma Unfolded(pages: map<nat, seq<Word>>, x: Word, w: Word)
    requires PagesOk(pages)
    ensures HasWord(pages, x, w) <==> Page(x) in pages && WordAt(pages, x) == w
  {
  }

  lemma MallocPages(m: Private)
    ensures PrivateMalloc(m).pages == m.pages
  {
  }

  lemma PageAdded(pages: map<nat, seq<Word>>, addr: Word, x: Word, w: Word)
    requires PagesOk(pages) && Page(addr) !in pages && HasWord(pages, x, w)
    ensures HasWord(pages[Page(addr) := ZEROS], x, w)
  {
  }

  /** No cycle of the run writes a word of lo .. hi or gives back its page. */
  ghost predicate Spared(m: Private, lo: nat, hi: nat, times: seq<Word>)
    requires PagesOk(m.pages)
    decreases |times|
  {
    times != [] ==>
      && (forall x: Word :: lo <= x < hi ==> !Spoils(m, x))
      && Spared(Advance(m, times[0]), lo, hi, times[1..])
  }

  lemma {:induction false} RunKeepsWord(m: Private, lo: nat, hi: nat, times: seq<Word>, x: Word, w: Word)
    requires PagesOk(m.pages) && Spared(m, lo, hi, times) && lo <= x < hi && HasWord(m.pages, x, w)
    ensures PagesOk(PrivateRun(m, times).pages) && HasWord(PrivateRun(m, times).pages, x, w)
    decreases |times|
  {
    hide HasWord, Advance, Spoils;
    if times != [] {
      WordKept(m, times[0], x, w);
      RunKeepsWord(Advance(m, times[0]), lo, hi, times[1..], x, w);
    }
  }

  /** A text stays through every run that spares it. */
  lemma RunKeepsText(m: Private, times: seq<Word>, vaddr: Word, text: seq<Word>)
    requires PagesOk(m.pages) && HoldsText(m.pages, vaddr, text) && Spared(m, vaddr, vaddr + |text| + 1, times)
    ensures HoldsText(PrivateRun(m, times).pages, vaddr, text)
  {
    hide Spared, PrivateRun;
    var r := PrivateRun(m, times);
    forall i: nat | i <= |text| ensures TextWord(r.pages, vaddr, text, i) {
      assert TextWord(m.pages, vaddr, text, i);
      RunKeepsWord(m, vaddr, vaddr + |text| + 1, times, vaddr + i, if i < |text| then text[i] else 0);
    }
  }

  /** Process a is running, and its next cycle is the print call with this address. */
  ghost predicate AboutToPrint(s: State, a: Addr, vaddr: Word) {
    && Linked(s) && s.mmu == a && a in s.procs
    && var m := PrivateOf(s, a); PrivateCycle(m).Traps? && m.gprs[0] == 1 && m.gprs[1] == vaddr
  }

  /** In every run of the kernel: a text in the memory of a process that spares it is what the
      process's print call shows, however many other events came in between. */
  lemma TextPrinted(s: State, es: seq<Event>, a: Addr, time: Word, vaddr: Word, text: seq<Word>)
    requires Inv(s) && Possible(s, es) && a in s.procs && HoldsText(PrivateOf(s, a).pages, vaddr, text)
    requires Spared(PrivateOf(s, a), vaddr, vaddr + |text| + 1, OwnTimes(s, es, a))
    requires AboutToPrint(Run(s, es), a, vaddr) && Enabled(Run(s, es), CpuCycle(time))
    ensures var t := Run(s, es);
            var r := Step(t, CpuCycle(time));
            r.out == t.out + text && r.on && a in r.procs
  {
    hide Inv, Run, Possible, OwnTimes, Spared, HoldsText, PrivateRun, Step, Enabled, PrivateOf, PrivateCycle;
    InvLinked(s);
    RunKeeps(s, es);
    RunIsolated(s, es, a);
    RunKeepsText(PrivateOf(s, a), OwnTimes(s, es, a), vaddr, text);
    PrintCall(Run(s, es), time, text);
  }
}
