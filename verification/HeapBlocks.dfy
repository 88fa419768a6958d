/** The memory that a process allocates: blocks never overlap each other or the loaded image, as
    long as the process stays within the 4096 pages of its address space. */
module HeapBlocks {
  import opened Isa
  import opened Paging
  import opened AddressSpaces
  import opened Kernel
  import opened KernelInvariant
  import opened Isolation

  function FirstPage(b: Block): (p: nat)
    ensures p < PTES
  {
    Page(b.start)
  }

  ghost predicate InBlock(b: Block, v: nat) {
    FirstPage(b) <= v < FirstPage(b) + b.pages
  }

  ghost predicate Apart(a: Block, b: Block) {
    FirstPage(a) + a.pages <= FirstPage(b) || FirstPage(b) + b.pages <= FirstPage(a)
  }

  /** Every block starts at a page boundary above the image and ends below the pages in use, and
      no two blocks share a page. */
  ghost predicate BlocksOk(blocks: seq<Block>, imagePages: nat, numPages: nat) {
    && numPages <= PTES
    && (forall i :: 0 <= i < |blocks| ==>
          blocks[i].pages >= 1 && Offset(blocks[i].start) == 0
          && imagePages <= FirstPage(blocks[i]) && FirstPage(blocks[i]) + blocks[i].pages <= numPages)
    && (forall i, j :: 0 <= i < j < |blocks| ==> Apart(blocks[i], blocks[j]))
  }

  /** A malloc that keeps the process within its address space. */
  ghost predicate Roomy(m: Private) {
    m.numPages + PagesNeeded(m.gprs[1]) <= PTES
  }

  lemma PagesOfWords(words: Word)
    ensures words > 0 ==> 1 <= PagesNeeded(words) <= PTES
    ensures words == 0 ==> PagesNeeded(words) == 0
    ensures words <= PagesNeeded(words) * PAGE
  {
  }

  /** The block that malloc hands out: exactly when there is room, it lies above all pages in use and
      inside the address space. */
  lemma MallocPlacement(m: Private)
    requires m.gprs[1] != 0 && m.numPages <= PTES
    ensures var r := PrivateMalloc(m);
            && |r.blocks| == |m.blocks| + 1 && r.gprs[1] == 1 && r.gprs[2] == r.blocks[|m.blocks|].start
            && (Roomy(m) <==> m.numPages <= FirstPage(r.blocks[|m.blocks|])
                              && FirstPage(r.blocks[|m.blocks|]) + r.blocks[|m.blocks|].pages <= PTES)
  {
    PagesOfWords(m.gprs[1]);
  }

  /** Beyond that the address wraps around: a process with all 4096 pages in use is given a block at
      address 0, on top of its own image. */
  lemma MallocWrapsAround(m: Private)
    requires m.gprs[1] != 0 && m.numPages == PTES
    ensures PrivateMalloc(m).blocks[|m.blocks|].start == 0
  {
  }

  lemma MallocKeepsBlocks(m: Private, imagePages: nat)
    requires BlocksOk(m.blocks, imagePages, m.numPages) && imagePages <= m.numPages && Roomy(m)
    ensures BlocksOk(PrivateMalloc(m).blocks, imagePages, PrivateMalloc(m).numPages)
    ensures m.numPages <= PrivateMalloc(m).numPages
  {
    PagesOfWords(m.gprs[1]);
  }

  /** Freeing the start address of a block removes that block and its pages, and no page of any
      other block or of the image. */
  lemma FreeExactly(m: Private, imagePages: nat, i: nat)
    requires BlocksOk(m.blocks, imagePages, m.numPages) && i < |m.blocks| && m.gprs[1] == m.blocks[i].start
    ensures var r := PrivateFree(m);
            && r.blocks == m.blocks[..i] + m.blocks[i + 1..] && r.gprs[1] == 1
            && (forall v :: InBlock(m.blocks[i], v) ==> v !in r.pages)
            && (forall v :: v in m.pages && v < imagePages ==> v in r.pages && r.pages[v] == m.pages[v])
            && (forall j, v :: 0 <= j < |m.blocks| && j != i && v in m.pages && InBlock(m.blocks[j], v) ==>
                  v in r.pages && r.pages[v] == m.pages[v])
  {
    FirstStart(m.blocks, imagePages, m.numPages, i);
  }

  lemma FirstStart(blocks: seq<Block>, imagePages: nat, numPages: nat, i: nat)
    requires BlocksOk(blocks, imagePages, numPages) && i < |blocks|
    ensures FindBlock(blocks, blocks[i].start) == i
  {
    var k := FindBlock(blocks, blocks[i].start);
    assert k < i ==> Apart(blocks[k], blocks[i]);
  }

  lemma FreeKeepsBlocks(m: Private, imagePages: nat)
    requires BlocksOk(m.blocks, imagePages, m.numPages)
    ensures BlocksOk(PrivateFree(m).blocks, imagePages, m.numPages)
  {
  }

  /** One cycle keeps the blocks in order, unless it is a malloc without room. */
  lemma AdvanceKeepsBlocks(m: Private, time: Word, imagePages: nat)
    requires PagesOk(m.pages) && BlocksOk(m.blocks, imagePages, m.numPages) && imagePages <= m.numPages
    requires Mallocs(m) ==> Roomy(m)
    ensures var r := Advance(m, time); BlocksOk(r.blocks, imagePages, r.numPages) && imagePages <= r.numPages
  {
    hide BlocksOk, PrivateMalloc, PrivateFree, Roomy, PrivateCycle;
    CycleFields(m);
    match PrivateCycle(m)
    case Traps(r) =>
      if r.gprs[0] == 4 {
        SameRoom(m, r);
        MallocKeepsBlocks(r, imagePages);
      } else if r.gprs[0] == 5 {
        FreeKeepsBlocks(r, imagePages);
        FreeFields(r);
      }
    case _ =>
  }

  lemma SameRoom(m: Private, r: Private)
    requires r.gprs == m.gprs && r.numPages == m.numPages
    ensures Roomy(r) == Roomy(m)
  {
  }

  lemma FreeFields(m: Private)
    ensures PrivateFree(m).numPages == m.numPages
  {
  }

  /** The next cycle is a malloc. */
  ghost predicate Mallocs(m: Private)
    requires PagesOk(m.pages)
  {
    PrivateCycle(m).Traps? && m.gprs[0] == 4
  }

  lemma CycleFields(m: Private)
    requires PagesOk(m.pages)
    ensures var o := PrivateCycle(m);
            && (o.Continues? || o.Traps? ==> o.m.blocks == m.blocks && o.m.numPages == m.numPages)
            && (o.Traps? ==> o.m.gprs == m.gprs)
  {
    hide Decode;
  }

  /** All mallocs of a run stay within the address space. */
  ghost predicate AlwaysRoomy(m: Private, times: seq<Word>)
    requires PagesOk(m.pages)
    decreases |times|
  {
    times != [] ==> (Mallocs(m) ==> Roomy(m)) && AlwaysRoomy(Advance(m, times[0]), times[1..])
  }

  lemma {:induction false} PrivateRunBlocks(m: Private, times: seq<Word>, imagePages: nat)
    requires PagesOk(m.pages) && BlocksOk(m.blocks, imagePages, m.numPages) && imagePages <= m.numPages
    requires AlwaysRoomy(m, times)
    ensures var r := PrivateRun(m, times); BlocksOk(r.blocks, imagePages, r.numPages)
    decreases |times|
  {
    hide BlocksOk, Advance, Mallocs, Roomy;
    if times != [] {
      AdvanceKeepsBlocks(m, times[0], imagePages);
      PrivateRunBlocks(Advance(m, times[0]), times[1..], imagePages);
    }
  }

  /** In every run of the whole kernel: while a process stays within its address space, its blocks
      are disjoint from each other and from its image, and inside the pages it may touch. */
  lemma BlocksStayApart(s: State, es: seq<Event>, a: Addr, imagePages: nat)
    requires Inv(s) && Possible(s, es) && a in s.procs && a in Run(s, es).procs
    requires BlocksOk(s.procs[a].blocks, imagePages, s.procs[a].numPages) && imagePages <= s.procs[a].numPages
    requires AlwaysRoomy(PrivateOf(s, a), OwnTimes(s, es, a))
    ensures BlocksOk(Run(s, es).procs[a].blocks, imagePages, Run(s, es).procs[a].numPages)
  {
    hide Inv, Run, Possible, OwnTimes, AlwaysRoomy, PrivateRun, BlocksOk;
    RunIsolated(s, es, a);
    InvLinked(s);
    PrivateRunBlocks(PrivateOf(s, a), OwnTimes(s, es, a), imagePages);
  }

  /** So it is from the moment a program is loaded: in every possible run after the load command, as
      long as its mallocs stay within the address space, its blocks lie above its image and apart. */
  lemma BlocksFromLoad(s: State, image: seq<Word>, es: seq<Event>)
    requires Inv(s) && image != [] && PagesNeeded(|image|) <= PTES && Enabled(s, LoadCommand(image, false))
    requires LoadedAndRoomy(LoadProgram(s, image, false), s.nextAddr, es)
    ensures var r := Run(LoadProgram(s, image, false), es);
            BlocksOk(r.procs[s.nextAddr].blocks, PagesNeeded(|image|), r.procs[s.nextAddr].numPages)
  {
    hide Within, Inv, Run, Possible, OwnTimes, AlwaysRoomy, LoadProgram, PrivateOf, ShowsImage;
    var r, a := LoadProgram(s, image, false), s.nextAddr;
    LoadKeepsInv(s, image);
    LoadSame(s, image, false);
    PrivateFields(r, a);
    BlocksStayApart(r, es, a, PagesNeeded(|image|));
  }

  /** The run is possible, the process survives it, and its mallocs have room. */
  ghost predicate LoadedAndRoomy(s: State, a: Addr, es: seq<Event>) {
    && Linked(s) && a in s.procs && Possible(s, es) && a in Run(s, es).procs
    && AlwaysRoomy(PrivateOf(s, a), OwnTimes(s, es, a))
  }

  lemma LoadKeepsInv(s: State, image: seq<Word>)
    requires Inv(s) && Enabled(s, LoadCommand(image, false))
    ensures Inv(LoadProgram(s, image, false))
  {
    hide Inv, LoadProgram;
    LoadKeeps(s, image, false);
  }

  lemma PrivateFields(s: State, a: Addr)
    requires Linked(s) && a in s.procs
    ensures PrivateOf(s, a).blocks == s.procs[a].blocks && PrivateOf(s, a).numPages == s.procs[a].numPages
  {
  }
}
