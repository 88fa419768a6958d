/** From the assembler's tree to the running process: a program that is linked, loaded and scheduled
    among others does what its source says, and its strings are printed as written. */
module ProgramInKernel {
  import opened Isa
  import opened Linker
  import opened Paging
  import opened AddressSpaces
  import opened Kernel
  import opened KernelInvariant
  import opened FrameAccounting
  import opened Isolation
  import opened PrintedText
  import opened SymbolicMachine

  // ---------- enough frames for the whole image ----------

  /** When fewer than all frames are used, one is found. */
  lemma FrameFound(vm: Vm)
    requires VmInv(vm) && |UsedFrames(vm)| < FRAMES
    ensures FirstFree(vm.frames, 2) < FRAMES
  {
    hide Interval;
    if FirstFree(vm.frames, 2) >= FRAMES {
      assert UsedFrames(vm) == Interval(0, FRAMES);
      IntervalSize(0, FRAMES);
    }
  }

  lemma PlaceUses(vm: Vm, a: Addr, v: nat, f: nat, words: seq<Word>)
    requires a in vm.tables && v < PTES && f < FRAMES && |words| == PAGE && !vm.frames[f]
    ensures |UsedFrames(PlaceFilled(vm, a, v, f, words))| == |UsedFrames(vm)| + 1
  {
    hide Interval, Fill;
    assert UsedFrames(PlaceFilled(vm, a, v, f, words)) == UsedFrames(vm) + {f};
  }

  /** How many of the pages p .. pages the free frames allow. */
  ghost function Allowed(vm: Vm, p: nat, pages: nat): (n: nat)
    requires p <= pages
    ensures n <= pages - p
  {
    if pages - p <= FRAMES - |UsedFrames(vm)| then pages - p
    else if |UsedFrames(vm)| <= FRAMES then FRAMES - |UsedFrames(vm)| else 0
  }

  lemma AllUsed(vm: Vm)
    requires VmInv(vm)
    ensures |UsedFrames(vm)| <= FRAMES
    ensures FirstFree(vm.frames, 2) < FRAMES <==> |UsedFrames(vm)| < FRAMES
  {
    hide Interval, VmInv;
    IntervalSize(0, FRAMES);
    SubsetSize(UsedFrames(vm), Interval(0, FRAMES));
    if |UsedFrames(vm)| < FRAMES {
      FrameFound(vm);
    } else if FirstFree(vm.frames, 2) < FRAMES {
      var f := FirstFree(vm.frames, 2);
      SubsetSize(UsedFrames(vm), Interval(0, FRAMES) - {f});
    }
  }

  /** There is a free frame exactly while fewer than 2046 pages of all processes together are present. */
  lemma FreeFrameExactly(vm: Vm)
    requires VmInv(vm)
    ensures |Residents(vm)| <= 2046 && (HasFrame(vm) <==> |Residents(vm)| < 2046)
  {
    hide VmInv, Residents, UsedFrames, HasFrame;
    AllUsed(vm);
    FrameCount(vm);
    FirstFreeFinds(vm);
  }

  /** The loader loads exactly as many pages of the image as the free frames allow. */
  lemma {:induction false} LoadPagesExactly(vm: Vm, a: Addr, image: seq<Word>, p: nat, pages: nat)
    requires VmInv(vm) && a in vm.tables && p <= pages <= PTES && ShowsImage(View(vm, a), image, p)
    requires forall v: nat :: p <= v < PTES ==> !vm.tables[a][v].present
    ensures var r := LoadPages(vm, a, image, p, pages);
            a in r.tables && ShowsImage(View(r, a), image, p + Allowed(vm, p, pages))
    decreases pages - p
  {
    hide View, VmInv, PlaceFilled, UsedFrames, ImagePage, FrameWords, ShowsImage;
    AllUsed(vm);
    var f := FirstFree(vm.frames, 2);
    if p < pages && f < FRAMES {
      var words := ImagePage(image, p, FrameWords(vm.mem, f));
      PlacedTable(vm, a, p, f, words);
      PlaceFilledView(vm, a, p, f, words);
      PlaceUses(vm, a, p, f, words);
      ShowsNext(View(vm, a), image, p, words);
      LoadPagesExactly(PlaceFilled(vm, a, p, f, words), a, image, p + 1, pages);
    }
  }

  /** With enough free frames these are all. */
  lemma LoadPagesAll(vm: Vm, a: Addr, image: seq<Word>, p: nat, pages: nat)
    requires VmInv(vm) && a in vm.tables && p <= pages <= PTES && |UsedFrames(vm)| + (pages - p) <= FRAMES
    requires ShowsImage(View(vm, a), image, p)
    requires forall v: nat :: p <= v < PTES ==> !vm.tables[a][v].present
    ensures var r := LoadPages(vm, a, image, p, pages); a in r.tables && ShowsImage(View(r, a), image, pages)
  {
    hide View, VmInv, LoadPages, ShowsImage, UsedFrames;
    LoadPagesExactly(vm, a, image, p, pages);
  }

  lemma ShowsNext(view: map<nat, seq<Word>>, image: seq<Word>, p: nat, words: seq<Word>)
    requires ShowsImage(view, image, p) && |words| == PAGE
    requires forall w: nat :: w < PAGE && p * PAGE + w < |image| ==> words[w] == image[p * PAGE + w]
    ensures ShowsImage(view[p := words], image, p + 1)
  {
  }

  /** The number of frames a program of this image needs is free. */
  ghost predicate Room(s: State, image: seq<Word>) {
    PagesNeeded(|image|) <= PTES && |UsedFrames(s.vm)| + PagesNeeded(|image|) <= FRAMES
  }

  /** Process a stands at address 1 with the pages of the whole image in its memory, and no others. */
  ghost predicate Fresh(s: State, a: Addr, image: seq<Word>) {
    && Linked(s) && a in s.procs
    && PrivateOf(s, a).pc == 1 && ShowsImage(PrivateOf(s, a).pages, image, PagesNeeded(|image|))
  }

  /** A program loaded while there is room is completely in memory. What stands behind the image in its
      last page is left open: see module FreshMemory. */
  lemma LoadedWhole(s: State, image: seq<Word>, isIdle: bool)
    requires Inv(s) && image != [] && Room(s, image)
    ensures var r := LoadProgram(s, image, isIdle);
            Fresh(r, s.nextAddr, image) && r.mmu == s.nextAddr
              && View(r.vm, s.nextAddr) == PrivateOf(r, s.nextAddr).pages
  {
    hide Within, Distinct, PrivateOf, VmInv, Table, RunsAtMost, LoadProgram, ShowsImage, UsedFrames;
    LoadSame(s, image, isIdle);
    LoadedView(s, image, isIdle);
    ItsPages(LoadProgram(s, image, isIdle), s.nextAddr);
  }

  lemma ItsPages(s: State, a: Addr)
    requires Linked(s) && a in s.procs
    ensures PrivateOf(s, a).pages == View(s.vm, a)
  {
  }

  lemma LoadedView(s: State, image: seq<Word>, isIdle: bool)
    requires Inv(s) && image != [] && Room(s, image)
    ensures var r := LoadProgram(s, image, isIdle);
            && s.nextAddr in r.vm.tables && r.mmu == s.nextAddr
            && ShowsImage(View(r.vm, s.nextAddr), image, PagesNeeded(|image|))
  {
    hide Within, Distinct, View, VmInv, Table, RunsAtMost, LoadPages, ShowsImage, UsedFrames;
    var a := s.nextAddr;
    var vm := Vm(s.vm.frames, s.vm.mem, s.vm.tables[a := EmptyTable()]);
    AddTable(s.vm, a);
    EmptyImage(image);
    SameUse(s.vm, vm);
    LoadPagesAll(vm, a, image, 0, PagesNeeded(|image|));
    LoadPagesKeys(vm, a, image, 0, PagesNeeded(|image|));
  }

  lemma SameUse(vm: Vm, r: Vm)
    requires r.frames == vm.frames
    ensures UsedFrames(r) == UsedFrames(vm)
  {
  }

  // ---------- programs ----------

  /** The source program decides what its process does: a process with the words the linker emits
      in its memory, run among any other processes through any events, has after its own cycles
      the registers, the memory and the position in the code that the symbolic program has. */
  lemma ProgramRunsAsWritten(items: seq<Item>, s: State, a: Addr, es: seq<Event>, time: Word, times: seq<Word>)
    requires WellFormed(items) && Encodable(items) && Link(items) == Binary(Image(items))
    requires Inv(s) && Fresh(s, a, Image(items)) && Possible(s, es) && a in Run(s, es).procs
    requires OwnTimes(s, es, a) == [time] + times
    requires Harmless(items, Start(items, PrivateOf(s, a)), times)
    ensures PrivateOf(Run(s, es), a) == Concrete(items, SymbolicRun(items, Start(items, PrivateOf(s, a)), times))
  {
    hide Within, Inv, Run, Possible, OwnTimes, Harmless, SymbolicRun, Start, Concrete, Encodable, WellFormed,
      ShowsImage, Image, PrivateOf, Linked, PrivateRun;
    RunIsolated(s, es, a);
    ProgramFromBoot(items, PrivateOf(s, a), time, times);
  }

  // ---------- strings ----------

  /** The words of an `.asciiz` directive: one character each, and a zero. */
  function Asciiz(text: seq<Word>): Item {
    Data(text + [0])
  }

  ghost predicate Printable(text: seq<Word>) {
    forall i :: 0 <= i < |text| ==> 0 < text[i] < 128
  }

  /** Pages that show the image hold the string of node k at its address. */
  lemma StringInImage(items: seq<Item>, k: nat, text: seq<Word>, pages: map<nat, seq<Word>>)
    requires k < |items| && items[k] == Asciiz(text) && Printable(text) && AddressOf(items, |items|) <= 0x1_0000
    requires PagesOk(pages) && ShowsImage(pages, Image(items), PagesNeeded(|Image(items)|))
    ensures AddressOf(items, k) < 0x1_0000 && HoldsText(pages, AddressOf(items, k), text)
    ensures |text| < WALK && Image(items) != []
  {
    hide ShowsImage, Image, AddressOf, WordAt;
    AddressIsPosition(items, k);
    AddressGrows(items, k + 1, |items|);
    var a := AddressOf(items, k);
    forall i: nat | i <= |text| ensures TextWord(pages, a, text, i) {
      ImageWord(items, pages, a + i);
      assert Image(items)[a + i] == Image(items)[a..a + |text| + 1][i];
      TextAt(pages, a, text, i);
    }
  }

  lemma TextAt(pages: map<nat, seq<Word>>, a: Word, text: seq<Word>, i: nat)
    requires PagesOk(pages) && i <= |text| && a + i < 0x1_0000 && Page(a + i) in pages
    requires WordAt(pages, a + i) == (text + [0])[i]
    ensures TextWord(pages, a, text, i)
  {
  }

  /** The label `name` stands in front of node k, with at most other labels in between. */
  ghost predicate Names(items: seq<Item>, name: Lexer.Text, k: nat) {
    Defined(items, name) && SkipLabels(items, FirstLabel(items, name)) == k
  }

  lemma NamedAddress(items: seq<Item>, name: Lexer.Text, k: nat)
    requires Names(items, name, k) && k < |items| && AddressOf(items, k) < 0x1_0000
    ensures LabelAddress(items, name) == AddressOf(items, k)
  {
    hide AddressOf, FirstLabel, SkipLabels;
    SkipSame(items, FirstLabel(items, name));
    WrapSmall(AddressOf(items, k));
  }

  /** A possible run after which process a is about to print address v, having spared the `length`
      characters there and the zero behind them. */
  ghost predicate PrintsLabel(s: State, a: Addr, es: seq<Event>, time: Word, v: Word, length: nat) {
    && Linked(s) && a in s.procs && Possible(s, es)
    && Spared(PrivateOf(s, a), v, v + length + 1, OwnTimes(s, es, a))
    && AboutToPrint(Run(s, es), a, v) && Enabled(Run(s, es), CpuCycle(time))
  }

  /** End to end: a string of characters 1 to 127, assembled and in memory, comes out as it was
      written whenever its process makes the print call with the address of a label in front of
      it: through any events, as long as the process has neither written its words nor freed
      their pages. */
  lemma StringFidelity(items: seq<Item>, name: Lexer.Text, k: nat, text: seq<Word>, s: State, a: Addr,
                       es: seq<Event>, time: Word)
    requires k < |items| && items[k] == Asciiz(text) && Printable(text) && AddressOf(items, |items|) <= 0x1_0000
    requires Names(items, name, k) && Inv(s) && Fresh(s, a, Image(items))
    requires PrintsLabel(s, a, es, time, LabelAddress(items, name), |text|)
    ensures var t := Run(s, es);
            var r := Step(t, CpuCycle(time));
            r.out == t.out + text && r.on && a in r.procs
  {
    hide Inv, Run, Possible, OwnTimes, Spared, HoldsText, Step, Enabled, PrivateOf, AboutToPrint, ShowsImage, Image,
      AddressOf, Names, Asciiz, Printable, LabelAddress;
    StringInImage(items, k, text, PrivateOf(s, a).pages);
    NamedAddress(items, name, k);
    TextPrinted(s, es, a, time, AddressOf(items, k), text);
  }

  /** The same from the load command on. */
  lemma StringFromLoad(items: seq<Item>, name: Lexer.Text, k: nat, text: seq<Word>, s: State, es: seq<Event>,
                       time: Word)
    requires k < |items| && items[k] == Asciiz(text) && Printable(text) && AddressOf(items, |items|) <= 0x1_0000
    requires Names(items, name, k) && Inv(s) && Enabled(s, LoadCommand(Image(items), false)) && Room(s, Image(items))
    requires PrintsLabel(LoadProgram(s, Image(items), false), s.nextAddr, es, time, LabelAddress(items, name), |text|)
    ensures var t := Run(LoadProgram(s, Image(items), false), es);
            var r := Step(t, CpuCycle(time));
            r.out == t.out + text && r.on && s.nextAddr in r.procs
  {
    hide Within, Inv, PrintsLabel, Fresh, LoadProgram, Image, Room, Names, Asciiz, Printable, LabelAddress, AddressOf,
      Step, Run;
    ImageStarts(items);
    LoadedWhole(s, Image(items), false);
    StepKeeps(s, LoadCommand(Image(items), false));
    LoadStep(s, Image(items), false);
    StringFidelity(items, name, k, text, LoadProgram(s, Image(items), false), s.nextAddr, es, time);
  }

  lemma LoadStep(s: State, image: seq<Word>, isIdle: bool)
    requires Enabled(s, LoadCommand(image, isIdle))
    ensures Step(s, LoadCommand(image, isIdle)) == LoadProgram(s, image, isIdle)
  {
    hide LoadProgram;
  }

  lemma ImageStarts(items: seq<Item>)
    ensures Image(items) != []
  {
  }
}
