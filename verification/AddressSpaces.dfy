/** What each process sees of memory, the bulk operations on page tables, and the proof that an
    operation on one address space leaves all the others alone. */
module AddressSpaces {
  import opened Isa
  import opened Paging

  /** The pages present for process a, with their contents. */
  ghost function View(vm: Vm, a: Addr): map<nat, seq<Word>>
    requires a in vm.tables
  {
    map v: nat | v < PTES && Resident(vm, a, v) :: FrameWords(vm.mem, vm.tables[a][v].frame)
  }

  ghost predicate Resident(vm: Vm, a: Addr, v: nat)
    requires a in vm.tables && v < PTES
  {
    vm.tables[a][v].present && vm.tables[a][v].frame < FRAMES
  }

  /** Every address space except a is as it was. */
  ghost predicate OthersKeep(vm: Vm, r: Vm, a: Addr) {
    && r.tables.Keys == vm.tables.Keys
    && forall b :: b in vm.tables && b != a ==> r.tables[b] == vm.tables[b] && View(r, b) == View(vm, b)
  }

  lemma OthersKeepTransitive(vm: Vm, m: Vm, r: Vm, a: Addr)
    requires OthersKeep(vm, m, a) && OthersKeep(m, r, a)
    ensures OthersKeep(vm, r, a)
  {
    forall b | b in vm.tables && b != a ensures View(r, b) == View(vm, b) {
      assert b in m.tables;
    }
  }

  // ---------- one page ----------

  lemma PlaceFilledView(vm: Vm, a: Addr, v: nat, f: nat, words: seq<Word>)
    requires VmInv(vm) && a in vm.tables && v < PTES && 2 <= f < FRAMES && |words| == PAGE
    requires !vm.frames[f] && !vm.tables[a][v].present
    ensures var r := PlaceFilled(vm, a, v, f, words);
            VmInv(r) && OthersKeep(vm, r, a) && View(r, a) == View(vm, a)[v := words]
  {
    var r := PlaceFilled(vm, a, v, f, words);
    PlaceKeeps(vm, a, v, f);
    SameMapping(Place(vm, a, v, f), r);
    forall b: Addr, w: nat | b in vm.tables && w < PTES && Resident(vm, b, w) && !(b == a && w == v)
      ensures FrameWords(r.mem, vm.tables[b][w].frame) == FrameWords(vm.mem, vm.tables[b][w].frame)
    {
      var g := vm.tables[b][w].frame;
      assert Maps(vm, b, w, g);
      FillFrames(vm.mem, f, words, g);
    }
    FillFrames(vm.mem, f, words, f);
    ResidentAfter(vm, r, a, v, true);
  }

  /** Ownership only depends on frames and tables. */
  lemma SameMapping(vm: Vm, r: Vm)
    requires VmInv(vm) && r.frames == vm.frames && r.tables == vm.tables
    ensures VmInv(r)
  {
    forall a: Addr, v: nat, f: nat ensures Maps(r, a, v, f) == Maps(vm, a, v, f) {
    }
    forall f: nat | 2 <= f < FRAMES && r.frames[f] ensures Mapped(r, f) {
      var a: Addr, v: nat :| Maps(vm, a, v, f);
      assert Maps(r, a, v, f);
    }
  }

  /** If only entry (a, v) changes residence and all other resident pages keep their words, the
      views change in that one page. */
  lemma ResidentAfter(vm: Vm, r: Vm, a: Addr, v: nat, placed: bool)
    requires a in vm.tables && v < PTES && r.tables.Keys == vm.tables.Keys
    requires forall b :: b in vm.tables && b != a ==> r.tables[b] == vm.tables[b]
    requires forall w: nat :: w < PTES && w != v ==> r.tables[a][w] == vm.tables[a][w]
    requires Resident(r, a, v) == placed
    requires forall b: Addr, w: nat :: b in vm.tables && w < PTES && Resident(vm, b, w) && !(b == a && w == v) ==>
               FrameWords(r.mem, vm.tables[b][w].frame) == FrameWords(vm.mem, vm.tables[b][w].frame)
    ensures OthersKeep(vm, r, a)
    ensures View(r, a) ==
            if placed then View(vm, a)[v := FrameWords(r.mem, r.tables[a][v].frame)] else View(vm, a) - {v}
  {
    hide FrameWords;
    forall b | b in vm.tables && b != a ensures View(r, b) == View(vm, b) {
      forall w: nat | w < PTES ensures Resident(r, b, w) == Resident(vm, b, w) {
      }
    }
    forall w: nat | w < PTES && w != v ensures Resident(r, a, w) == Resident(vm, a, w) {
    }
  }

  lemma DropView(vm: Vm, a: Addr, v: nat)
    requires VmInv(vm) && a in vm.tables && v < PTES
    ensures var r := Drop(vm, a, v);
            VmInv(r) && OthersKeep(vm, r, a) && View(r, a) == View(vm, a) - {v}
  {
    DropKeeps(vm, a, v);
    ResidentAfter(vm, Drop(vm, a, v), a, v, false);
  }

  function SetWord(words: seq<Word>, o: nat, value: Word): (r: seq<Word>)
    requires o < |words|
    ensures |r| == |words|
  {
    words[o := value]
  }

  /** Word `value` stored at virtual address vaddr. */
  function StoreAt(vm: Vm, a: Addr, vaddr: Word, value: Word): Vm
    requires a in vm.tables && Translate(vm.tables[a], vaddr, Write).Granted?
  {
    var paddr := Translate(vm.tables[a], vaddr, Write).paddr;
    Vm(vm.frames, if paddr < MEMORY then vm.mem[paddr := value] else vm.mem, vm.tables)
  }

  lemma StoreView(vm: Vm, a: Addr, vaddr: Word, value: Word)
    requires VmInv(vm) && a in vm.tables && Translate(vm.tables[a], vaddr, Write).Granted?
    ensures var r := StoreAt(vm, a, vaddr, value);
            && VmInv(r) && OthersKeep(vm, r, a) && Page(vaddr) in View(vm, a)
            && View(r, a) == View(vm, a)[Page(vaddr) := SetWord(View(vm, a)[Page(vaddr)], Offset(vaddr), value)]
  {
    var r, v := StoreAt(vm, a, vaddr, value), Page(vaddr);
    var f := vm.tables[a][v].frame;
    assert Maps(vm, a, v, f);
    SameMapping(vm, r);
    assert FrameWords(r.mem, f) == SetWord(FrameWords(vm.mem, f), Offset(vaddr), value);
    forall b: Addr, w: nat | b in vm.tables && w < PTES && Resident(vm, b, w) && !(b == a && w == v)
      ensures FrameWords(r.mem, vm.tables[b][w].frame) == FrameWords(vm.mem, vm.tables[b][w].frame)
    {
      var g := vm.tables[b][w].frame;
      assert Maps(vm, b, w, g);
      assert g < f || g > f;
    }
    ResidentAfter(vm, r, a, v, true);
  }

  /** A granted access reads the word that the view holds there. */
  lemma ReadView(vm: Vm, a: Addr, vaddr: Word, kind: AccessKind)
    requires VmInv(vm) && a in vm.tables
    ensures Translate(vm.tables[a], vaddr, kind) ==
            (if Page(vaddr) in View(vm, a)
             then Granted(vm.tables[a][Page(vaddr)].frame * PAGE + Offset(vaddr))
             else PageFault)
    ensures Page(vaddr) in View(vm, a) ==>
              var paddr := Translate(vm.tables[a], vaddr, kind).paddr;
              paddr < MEMORY && vm.mem[paddr] == View(vm, a)[Page(vaddr)][Offset(vaddr)]
  {
    var e := vm.tables[a][Page(vaddr)];
    if e.present {
      assert Maps(vm, a, Page(vaddr), e.frame);
    }
  }

  /** The usage bits do not matter to ownership or to any view. */
  lemma MarkView(vm: Vm, a: Addr, vaddr: Word, kind: AccessKind)
    requires VmInv(vm) && a in vm.tables
    ensures var r := Vm(vm.frames, vm.mem, vm.tables[a := Marked(vm.tables[a], vaddr, kind)]);
            VmInv(r) && OthersKeep(vm, r, a) && View(r, a) == View(vm, a)
  {
    var r := Vm(vm.frames, vm.mem, vm.tables[a := Marked(vm.tables[a], vaddr, kind)]);
    forall b: Addr, v: nat, f: nat ensures Maps(r, b, v, f) == Maps(vm, b, v, f) {
    }
    forall f: nat | 2 <= f < FRAMES && r.frames[f] ensures Mapped(r, f) {
      var b: Addr, v: nat :| Maps(vm, b, v, f);
      assert Maps(r, b, v, f);
    }
    forall b: Addr, w: nat | b in vm.tables && w < PTES ensures Resident(r, b, w) == Resident(vm, b, w) {
    }
  }

  lemma DemandPageView(vm: Vm, a: Addr, v: nat)
    requires VmInv(vm) && a in vm.tables && v < PTES && FirstFree(vm.frames, 2) < FRAMES
    requires !vm.tables[a][v].present
    ensures var r := DemandPage(vm, a, v);
            VmInv(r) && OthersKeep(vm, r, a) && View(r, a) == View(vm, a)[v := ZEROS]
    ensures |ZEROS| == 16 && forall w :: 0 <= w < 16 ==> ZEROS[w] == 0
  {
    PlaceFilledView(vm, a, v, FirstFree(vm.frames, 2), ZEROS);
  }

  // ---------- freeing a range ----------

  /** Pages start .. start + n of process a dropped, as far as the table reaches. */
  function FreePages(vm: Vm, a: Addr, start: nat, n: nat): (r: Vm)
    requires a in vm.tables
    ensures a in r.tables
    decreases n
  {
    if n == 0 || start + n - 1 >= PTES then
      if n == 0 then vm else FreePages(vm, a, start, n - 1)
    else Drop(FreePages(vm, a, start, n - 1), a, start + n - 1)
  }

  /** Whether the range holds a present page. */
  function AnyPresent(t: PageTable, start: nat, n: nat): bool {
    exists v :: start <= v < start + n && v < PTES && t[v].present
  }

  /** A view without the pages start .. start + n. */
  ghost function Without(view: map<nat, seq<Word>>, start: nat, n: nat): map<nat, seq<Word>> {
    map v: nat | v in view && !(start <= v < start + n) :: view[v]
  }

  lemma {:induction false} FreePagesView(vm: Vm, a: Addr, start: nat, n: nat)
    requires VmInv(vm) && a in vm.tables
    ensures var r := FreePages(vm, a, start, n);
            VmInv(r) && OthersKeep(vm, r, a) && View(r, a) == Without(View(vm, a), start, n)
    decreases n
  {
    hide View, VmInv, Drop;
    if n > 0 {
      var m := FreePages(vm, a, start, n - 1);
      FreePagesView(vm, a, start, n - 1);
      if start + n - 1 < PTES {
        DropView(m, a, start + n - 1);
        OthersKeepTransitive(vm, m, Drop(m, a, start + n - 1), a);
      } else {
        PagesInView(m, a);
      }
      assert Without(View(vm, a), start, n) == Without(Without(View(vm, a), start, n - 1), start + n - 1, 1);
    }
  }

  lemma PagesInView(vm: Vm, a: Addr)
    requires a in vm.tables
    ensures forall v :: v in View(vm, a) ==> v < PTES
  {
  }

  // ---------- loading an image ----------

  /** Page p of the image: its words, and what the frame held where the image has ended. */
  function ImagePage(image: seq<Word>, p: nat, before: seq<Word>): (r: seq<Word>)
    requires |before| == PAGE
    ensures |r| == PAGE
    ensures forall w :: 0 <= w < PAGE ==> r[w] == if p * PAGE + w < |image| then image[p * PAGE + w] else before[w]
  {
    seq(PAGE, w requires 0 <= w < PAGE => if p * PAGE + w < |image| then image[p * PAGE + w] else before[w])
  }

  function PagesNeeded(words: nat): nat {
    (words + (PAGE - 1)) / PAGE
  }

  /** Pages p .. pages of the image placed, until the frames run out. */
  function LoadPages(vm: Vm, a: Addr, image: seq<Word>, p: nat, pages: nat): (r: Vm)
    requires a in vm.tables && pages <= PTES
    decreases pages - p
  {
    if p >= pages || FirstFree(vm.frames, 2) >= FRAMES then vm
    else
      LoadPages(PlaceFilled(vm, a, p, FirstFree(vm.frames, 2),
                            ImagePage(image, p, FrameWords(vm.mem, FirstFree(vm.frames, 2)))),
                a, image, p + 1, pages)
  }

  /** A view whose pages are the first ones, and show the image as far as it goes. */
  ghost predicate ShowsImage(view: map<nat, seq<Word>>, image: seq<Word>, loaded: nat) {
    && (forall v: nat :: v in view <==> v < loaded)
    && (forall v: nat, w: nat :: v in view && w < |view[v]| && v * PAGE + w < |image| ==>
       view[v][w] == image[v * PAGE + w])
    && (forall v: nat :: v in view ==> |view[v]| == PAGE)
  }

  lemma PlacedTable(vm: Vm, a: Addr, v: nat, f: nat, words: seq<Word>)
    requires a in vm.tables && v < PTES && f < FRAMES && |words| == PAGE
    ensures var r := PlaceFilled(vm, a, v, f, words);
            a in r.tables && forall w: nat :: w < PTES && w != v ==> r.tables[a][w] == vm.tables[a][w]
  {
  }

  lemma {:induction false} LoadPagesView(vm: Vm, a: Addr, image: seq<Word>, p: nat, pages: nat)
    requires VmInv(vm) && a in vm.tables && p <= pages <= PTES
    requires ShowsImage(View(vm, a), image, p)
    requires forall v: nat :: p <= v < PTES ==> !vm.tables[a][v].present
    ensures var r := LoadPages(vm, a, image, p, pages);
            VmInv(r) && OthersKeep(vm, r, a) &&
            exists loaded: nat :: p <= loaded <= pages && ShowsImage(View(r, a), image, loaded)
    decreases pages - p
  {
    hide View, VmInv, PlaceFilled;
    var f := FirstFree(vm.frames, 2);
    if p < pages && f < FRAMES {
      PlacedTable(vm, a, p, f, ImagePage(image, p, FrameWords(vm.mem, f)));
      var words := ImagePage(image, p, FrameWords(vm.mem, f));
      var m := PlaceFilled(vm, a, p, f, words);
      PlaceFilledView(vm, a, p, f, words);
      LoadPagesView(m, a, image, p + 1, pages);
      OthersKeepTransitive(vm, m, LoadPages(m, a, image, p + 1, pages), a);
    }
  }

  // ---------- giving up an address space ----------

  /** The present pages before n of process a dropped. */
  function FreeAll(vm: Vm, a: Addr, n: nat): (r: Vm)
    requires a in vm.tables && n <= PTES
    ensures r.tables.Keys == vm.tables.Keys
    decreases n
  {
    if n == 0 then vm
    else if FreeAll(vm, a, n - 1).tables[a][n - 1].present then Drop(FreeAll(vm, a, n - 1), a, n - 1)
    else FreeAll(vm, a, n - 1)
  }

  function Remove(vm: Vm, a: Addr): (r: Vm)
    requires a in vm.tables
    ensures r.tables.Keys == vm.tables.Keys - {a}
  {
    Vm(FreeAll(vm, a, PTES).frames, vm.mem, FreeAll(vm, a, PTES).tables - {a})
  }

  lemma {:induction false} FreeAllView(vm: Vm, a: Addr, n: nat)
    requires VmInv(vm) && a in vm.tables && n <= PTES
    ensures var r := FreeAll(vm, a, n);
            && VmInv(r) && OthersKeep(vm, r, a) && r.mem == vm.mem
            && forall v: nat :: v < n ==> !r.tables[a][v].present
    decreases n
  {
    hide View, VmInv;
    if n > 0 {
      var m := FreeAll(vm, a, n - 1);
      FreeAllView(vm, a, n - 1);
      if m.tables[a][n - 1].present {
        DropView(m, a, n - 1);
        OthersKeepTransitive(vm, m, Drop(m, a, n - 1), a);
      }
    }
  }

  /** Removing a process frees all its frames and leaves the other address spaces alone. */
  lemma RemoveView(vm: Vm, a: Addr)
    requires VmInv(vm) && a in vm.tables
    ensures var r := Remove(vm, a);
            && VmInv(r) && r.tables.Keys == vm.tables.Keys - {a}
            && forall b :: b in vm.tables && b != a ==> r.tables[b] == vm.tables[b] && View(r, b) == View(vm, b)
  {
    hide VmInv, View;
    var m := FreeAll(vm, a, PTES);
    FreeAllView(vm, a, PTES);
    RemoveEmpty(m, a);
  }

  /** An address space without present pages can be taken away. */
  lemma RemoveEmpty(vm: Vm, a: Addr)
    requires VmInv(vm) && a in vm.tables && forall v: nat :: v < PTES ==> !vm.tables[a][v].present
    ensures var r := Vm(vm.frames, vm.mem, vm.tables - {a});
            VmInv(r) &&
            forall b :: b in vm.tables && b != a ==> r.tables[b] == vm.tables[b] && View(r, b) == View(vm, b)
  {
    hide View;
    var r := Vm(vm.frames, vm.mem, vm.tables - {a});
    forall b: Addr, v: nat, f: nat ensures Maps(r, b, v, f) == Maps(vm, b, v, f) {
    }
    forall f: nat | 2 <= f < FRAMES && r.frames[f] ensures Mapped(r, f) {
      var b: Addr, v: nat :| Maps(vm, b, v, f);
      assert Maps(r, b, v, f);
    }
    forall b | b in vm.tables && b != a ensures View(r, b) == View(vm, b) {
      SameTableView(vm, r, b);
    }
  }

  lemma SameTableView(vm: Vm, r: Vm, a: Addr)
    requires a in vm.tables && a in r.tables && r.tables[a] == vm.tables[a] && r.mem == vm.mem
    ensures View(r, a) == View(vm, a)
  {
    forall w: nat | w < PTES ensures Resident(r, a, w) == Resident(vm, a, w) {
    }
  }

  function EmptyTable(): (t: PageTable)
    ensures forall v :: 0 <= v < PTES ==> t[v] == EMPTY
  {
    seq(PTES, i => EMPTY)
  }

  /** A new, empty address space. */
  lemma AddTable(vm: Vm, a: Addr)
    requires VmInv(vm) && a !in vm.tables
    ensures var r := Vm(vm.frames, vm.mem, vm.tables[a := EmptyTable()]);
            && VmInv(r) && View(r, a) == map[]
            && forall b :: b in vm.tables ==> r.tables[b] == vm.tables[b] && View(r, b) == View(vm, b)
  {
    var r := Vm(vm.frames, vm.mem, vm.tables[a := EmptyTable()]);
    forall b: Addr, v: nat, f: nat ensures Maps(r, b, v, f) == Maps(vm, b, v, f) {
    }
    forall f: nat | 2 <= f < FRAMES && r.frames[f] ensures Mapped(r, f) {
      var b: Addr, v: nat :| Maps(vm, b, v, f);
      assert Maps(r, b, v, f);
    }
    forall b | b in vm.tables ensures View(r, b) == View(vm, b) {
      forall w: nat | w < PTES ensures Resident(r, b, w) == Resident(vm, b, w) {
      }
    }
  }
}
