/** What a freshly loaded process finds in its memory: its image, and, in the last page, what the
    frame held before. */
module FreshMemory {
  import opened Isa
  import opened Paging
  import opened AddressSpaces
  import opened Kernel
  import opened KernelInvariant
  import opened FrameAccounting
  import opened Isolation
  import opened ProgramInKernel

  // ---------- what can be read without writing ----------

  /** The next cycle writes no memory. */
  ghost predicate ReadsOnly(m: Private)
    requires PagesOk(m.pages)
  {
    Page(m.pc) in m.pages ==> !Execute(Decode(WordAt(m.pages, m.pc)), m.gprs, Wrap(m.pc + 1)).WriteWord?
  }

  ghost predicate AlwaysReadsOnly(m: Private, times: seq<Word>)
    requires PagesOk(m.pages)
    decreases |times|
  {
    times != [] ==> ReadsOnly(m) && AlwaysReadsOnly(Advance(m, times[0]), times[1..])
  }

  /** Every page is one of `first`, or zero. */
  ghost predicate FromOrZero(first: map<nat, seq<Word>>, pages: map<nat, seq<Word>>) {
    forall v :: v in pages ==> pages[v] == ZEROS || (v in first && pages[v] == first[v])
  }

  lemma FreeTakes(m: Private)
    requires PagesOk(m.pages)
    ensures forall v :: v in PrivateFree(m).pages ==> v in m.pages && PrivateFree(m).pages[v] == m.pages[v]
  {
    hide FindBlock, AnyMapped;
  }

  lemma StepFromOrZero(first: map<nat, seq<Word>>, m: Private, time: Word)
    requires PagesOk(m.pages) && ReadsOnly(m) && FromOrZero(first, m.pages)
    ensures FromOrZero(first, Advance(m, time).pages)
  {
    hide Decode, Execute, WordAt, PagesWith, PrivateFree;
    if Page(m.pc) in m.pages {
      var e := Execute(Decode(WordAt(m.pages, m.pc)), m.gprs, Wrap(m.pc + 1));
      if e.Trap? {
        FreeTakes(m.(pc := Wrap(m.pc + 1)));
      }
    }
  }

  /** A process that has written nothing reads the words of its first pages, and zeros. */
  lemma {:induction false} ReadableWords(first: map<nat, seq<Word>>, m: Private, times: seq<Word>)
    requires PagesOk(m.pages) && AlwaysReadsOnly(m, times) && FromOrZero(first, m.pages)
    ensures FromOrZero(first, PrivateRun(m, times).pages)
    decreases |times|
  {
    hide ReadsOnly, Advance, FromOrZero;
    if times != [] {
      StepFromOrZero(first, m, times[0]);
      ReadableWords(first, Advance(m, times[0]), times[1..]);
    }
  }

  // ---------- what the loader leaves ----------

  /** The words of page v behind the image are all c. */
  ghost predicate Leftover(pages: map<nat, seq<Word>>, image: seq<Word>, v: nat, c: Word) {
    v in pages && forall w: nat :: w < |pages[v]| && v * PAGE + w >= |image| ==> pages[v][w] == c
  }

  /** All free frames are full of c. */
  ghost predicate FreeFilled(vm: Vm, c: Word) {
    forall g: nat, w: nat :: 2 <= g < FRAMES && !vm.frames[g] && w < PAGE ==> FrameWords(vm.mem, g)[w] == c
  }

  lemma PlaceKeepsFilled(vm: Vm, a: Addr, v: nat, f: nat, words: seq<Word>, c: Word)
    requires a in vm.tables && v < PTES && f < FRAMES && |words| == PAGE && FreeFilled(vm, c)
    ensures FreeFilled(PlaceFilled(vm, a, v, f, words), c)
  {
    hide FrameWords, Fill;
    forall g: nat | 2 <= g < FRAMES && g != f ensures FrameWords(Fill(vm.mem, f, words), g) == FrameWords(vm.mem, g) {
      FillFrames(vm.mem, f, words, g);
    }
  }

  /** Pages loaded earlier stay as they are, and what is behind the image is what the frames held. */
  lemma {:induction false} LoadPagesResidue(vm: Vm, a: Addr, image: seq<Word>, p: nat, pages: nat, c: Word)
    requires VmInv(vm) && a in vm.tables && p <= pages <= PTES && |UsedFrames(vm)| + (pages - p) <= FRAMES
    requires FreeFilled(vm, c) && forall v: nat :: p <= v < PTES ==> !vm.tables[a][v].present
    ensures var r := LoadPages(vm, a, image, p, pages);
            && a in r.tables
            && (forall v :: v in View(vm, a) ==> v in View(r, a) && View(r, a)[v] == View(vm, a)[v])
            && (forall v: nat :: p <= v < pages ==> Leftover(View(r, a), image, v, c))
    decreases pages - p
  {
    hide View, VmInv, PlaceFilled, UsedFrames, ImagePage, FrameWords, FreeFilled, Leftover;
    if p < pages {
      var f := FirstFree(vm.frames, 2);
      FrameFound(vm);
      var words := ImagePage(image, p, FrameWords(vm.mem, f));
      var m := PlaceFilled(vm, a, p, f, words);
      PlacedTable(vm, a, p, f, words);
      PlaceFilledView(vm, a, p, f, words);
      PlaceUses(vm, a, p, f, words);
      PlaceKeepsFilled(vm, a, p, f, words, c);
      AbsentNotShown(vm, a, p);
      LoadPagesResidue(m, a, image, p + 1, pages, c);
      PageLeftover(vm, image, p, f, View(m, a), c);
      SamePage(View(m, a), View(LoadPages(m, a, image, p + 1, pages), a), image, p, c);
    }
  }

  lemma AbsentNotShown(vm: Vm, a: Addr, v: nat)
    requires a in vm.tables && v < PTES && !vm.tables[a][v].present
    ensures v !in View(vm, a)
  {
  }

  lemma PageLeftover(vm: Vm, image: seq<Word>, p: nat, f: nat, view: map<nat, seq<Word>>, c: Word)
    requires 2 <= f < FRAMES && !vm.frames[f] && FreeFilled(vm, c)
    requires p in view && view[p] == ImagePage(image, p, FrameWords(vm.mem, f))
    ensures Leftover(view, image, p, c)
  {
    hide FrameWords;
  }

  lemma SamePage(view: map<nat, seq<Word>>, view': map<nat, seq<Word>>, image: seq<Word>, p: nat, c: Word)
    requires p in view && p in view' && view'[p] == view[p] && Leftover(view, image, p, c)
    ensures Leftover(view', image, p, c)
  {
  }

  // ---------- any previous memory ----------

  /** The state with another content of the physical memory. */
  function WithMemory(s: State, mem: Memory): (r: State)
    requires Linked(s)
    ensures Linked(r) && r.procs == s.procs && r.nextAddr == s.nextAddr && r.vm.mem == mem
  {
    s.(vm := Vm(s.vm.frames, mem, s.vm.tables))
  }

  /** The pages a new process finds when the memory held `mem` before. */
  ghost function FreshPages(s: State, mem: Memory, image: seq<Word>): map<nat, seq<Word>>
    requires Linked(s) && s.nextAddr !in s.procs
  {
    var r := LoadProgram(WithMemory(s, mem), image, false);
    if s.nextAddr in r.vm.tables then View(r.vm, s.nextAddr) else map[]
  }

  lemma AnyMemory(s: State, mem: Memory, image: seq<Word>)
    requires Inv(s) && Room(s, image)
    ensures Inv(WithMemory(s, mem)) && Room(WithMemory(s, mem), image)
  {
    hide Within, Distinct, View, Table, RunsAtMost;
    SameMapping(s.vm, WithMemory(s, mem).vm);
    SameUse(s.vm, WithMemory(s, mem).vm);
  }

  function FilledMemory(c: Word): (mem: Memory)
    ensures forall i :: 0 <= i < MEMORY ==> mem[i] == c
  {
    seq(MEMORY, i => c)
  }

  lemma AllFilled(vm: Vm, c: Word)
    requires vm.mem == FilledMemory(c)
    ensures FreeFilled(vm, c)
  {
    hide FilledMemory;
  }

  lemma FreshShows(s: State, mem: Memory, image: seq<Word>)
    requires Inv(s) && image != [] && Room(s, image)
    ensures s.nextAddr !in s.procs && ShowsImage(FreshPages(s, mem, image), image, PagesNeeded(|image|))
  {
    hide Inv, LoadProgram, View, ShowsImage, Room, WithMemory;
    InvLinked(s);
    AnyMemory(s, mem, image);
    LoadedView(WithMemory(s, mem), image, false);
  }

  lemma FreshLeftover(s: State, image: seq<Word>, c: Word)
    requires Inv(s) && image != [] && Room(s, image)
    ensures s.nextAddr !in s.procs
    ensures forall v: nat :: v < PagesNeeded(|image|) ==> Leftover(FreshPages(s, FilledMemory(c), image), image, v, c)
  {
    hide Within, Distinct, View, VmInv, Table, RunsAtMost, LoadPages, UsedFrames, FreeFilled, Leftover, FilledMemory;
    var t, a := WithMemory(s, FilledMemory(c)), s.nextAddr;
    AnyMemory(s, FilledMemory(c), image);
    var vm := Vm(t.vm.frames, t.vm.mem, t.vm.tables[a := EmptyTable()]);
    AddTable(t.vm, a);
    SameUse(t.vm, vm);
    AllFilled(vm, c);
    LoadPagesResidue(vm, a, image, 0, PagesNeeded(|image|), c);
  }

  lemma LastPage(words: nat)
    requires words > 0
    ensures var last := PagesNeeded(words) - 1; last >= 0 && (words % PAGE != 0 ==> last * PAGE + (PAGE - 1) >= words)
    ensures words % PAGE == 0 ==> forall v: nat :: v < PagesNeeded(words) ==> v * PAGE + PAGE <= words
  {
  }

  lemma LastWord(view: map<nat, seq<Word>>, image: seq<Word>, last: nat, c: Word)
    requires ShowsImage(view, image, last + 1) && last * PAGE + (PAGE - 1) >= |image| && Leftover(view, image, last, c)
    ensures last in view && |view[last]| == PAGE && view[last][PAGE - 1] == c
  {
    var w: nat := PAGE - 1;
    assert last in view && w < |view[last]|;
  }

  /** Two views that both show an image of whole pages are the same. */
  lemma WholePages(image: seq<Word>, view: map<nat, seq<Word>>, view': map<nat, seq<Word>>)
    requires image != [] && |image| % PAGE == 0
    requires ShowsImage(view, image, PagesNeeded(|image|)) && ShowsImage(view', image, PagesNeeded(|image|))
    ensures view == view'
  {
    LastPage(|image|);
    forall v: nat | v in view ensures v in view' && view'[v] == view[v] {
      forall w: nat | w < PAGE ensures view'[v][w] == view[v][w] {
        assert v * PAGE + w < |image|;
      }
    }
    assert forall v: nat :: v in view' ==> v in view;
  }

  /** What a new process finds in its memory does not depend on what was there before exactly when its
      image fills its last page. Otherwise the words behind the image are those of the frame. */
  lemma ResidueExactly(s: State, image: seq<Word>)
    requires Inv(s) && image != [] && Room(s, image)
    ensures s.nextAddr !in s.procs
    ensures (forall m: Memory, m': Memory :: FreshPages(s, m, image) == FreshPages(s, m', image)) <==>
            |image| % PAGE == 0
  {
    hide FreshPages, Room, Inv, ShowsImage, Leftover, FilledMemory;
    LastPage(|image|);
    InvLinked(s);
    if |image| % PAGE == 0 {
      forall m: Memory, m': Memory ensures FreshPages(s, m, image) == FreshPages(s, m', image) {
        FreshShows(s, m, image);
        FreshShows(s, m', image);
        WholePages(image, FreshPages(s, m, image), FreshPages(s, m', image));
      }
    } else {
      var last := PagesNeeded(|image|) - 1;
      Witness(s, image, last, 0);
      Witness(s, image, last, 7);
    }
  }

  /** A memory full of c leaves c in the last word of a page that the image does not fill. */
  lemma Witness(s: State, image: seq<Word>, last: nat, c: Word)
    requires Inv(s) && image != [] && Room(s, image) && |image| % PAGE != 0 && last == PagesNeeded(|image|) - 1
    ensures s.nextAddr !in s.procs
    ensures var pages := FreshPages(s, FilledMemory(c), image);
            last in pages && |pages[last]| == PAGE && pages[last][PAGE - 1] == c
  {
    hide FreshPages, Room, Inv, ShowsImage, Leftover, FilledMemory;
    InvLinked(s);
    LastPage(|image|);
    FreshShows(s, FilledMemory(c), image);
    FreshLeftover(s, image, c);
    LastWord(FreshPages(s, FilledMemory(c), image), image, last, c);
  }
}
