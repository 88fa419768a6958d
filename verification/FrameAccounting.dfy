/** Counting frames: used frames against resident pages, and why the string printer ends. */
module FrameAccounting {
  import opened Isa
  import opened Paging
  import opened AddressSpaces
  import opened Kernel

  // ---------- finite sets ----------

  ghost function ImageOf<A>(s: set<A>, f: A -> nat): set<nat> {
    set x | x in s :: f(x)
  }

  lemma {:induction false} InjectiveImage<A>(s: set<A>, f: A -> nat)
    requires forall x, y :: x in s && y in s && f(x) == f(y) ==> x == y
    ensures |ImageOf(s, f)| == |s|
    decreases |s|
  {
    if s != {} {
      var x :| x in s;
      InjectiveImage(s - {x}, f);
      assert ImageOf(s, f) == ImageOf(s - {x}, f) + {f(x)};
    }
  }

  ghost function Interval(lo: nat, hi: nat): (s: set<nat>)
    requires lo <= hi
    ensures forall x :: x in s <==> lo <= x < hi
    decreases hi
  {
    if lo == hi then {} else Interval(lo, hi - 1) + {hi - 1}
  }

  lemma {:induction false} IntervalSize(lo: nat, hi: nat)
    requires lo <= hi
    ensures |Interval(lo, hi)| == hi - lo
    decreases hi
  {
    if lo < hi {
      IntervalSize(lo, hi - 1);
    }
  }

  lemma {:induction false} SubsetSize<A>(a: set<A>, b: set<A>)
    requires a <= b
    ensures |a| <= |b|
    decreases |a|
  {
    if a != {} {
      var x :| x in a;
      SubsetSize(a - {x}, b - {x});
    }
  }

  // ---------- frames and resident pages ----------

  /** All present page-table entries of all live processes. */
  ghost function Residents(vm: Vm): set<(Addr, nat)> {
    set a, v | a in vm.tables && v in Interval(0, PTES) && vm.tables[a][v].present :: (a, v)
  }

  ghost function UsedFrames(vm: Vm): set<nat> {
    set f | f in Interval(0, FRAMES) && vm.frames[f]
  }

  ghost function FrameOf(vm: Vm, r: (Addr, nat)): nat {
    if r.0 in vm.tables && r.1 < PTES then vm.tables[r.0][r.1].frame else 0
  }

  lemma ResidentFrames(vm: Vm)
    requires VmInv(vm)
    ensures forall r :: r in Residents(vm) ==> Maps(vm, r.0, r.1, FrameOf(vm, r)) && 2 <= FrameOf(vm, r) < FRAMES
    ensures forall x, y :: x in Residents(vm) && y in Residents(vm) && FrameOf(vm, x) == FrameOf(vm, y) ==> x == y
  {
    forall r | r in Residents(vm) ensures Maps(vm, r.0, r.1, FrameOf(vm, r)) {
    }
  }

  ghost function FrameSet(vm: Vm): set<nat> {
    set r | r in Residents(vm) :: FrameOf(vm, r)
  }

  lemma FrameSetSize(vm: Vm)
    requires VmInv(vm)
    ensures |FrameSet(vm)| == |Residents(vm)|
  {
    hide VmInv, Residents, FrameOf;
    ResidentFrames(vm);
    var f := (r: (Addr, nat)) => FrameOf(vm, r);
    InjectiveImage(Residents(vm), f);
    assert FrameSet(vm) == ImageOf(Residents(vm), f);
  }

  /** No frame leaks and none is shared: the used frames are the two reserved ones and one for each
      present entry of a live process. */
  lemma FrameCount(vm: Vm)
    requires VmInv(vm)
    ensures |UsedFrames(vm)| == 2 + |Residents(vm)|
  {
    hide VmInv, Interval, Residents, FrameOf, UsedFrames;
    FrameSetSize(vm);
    forall g ensures g in UsedFrames(vm) <==> g in FrameSet(vm) || g < 2 {
      UsedFrame(vm, g);
    }
    UsedFrame(vm, 0);
    UsedFrame(vm, 1);
    DisjointPair(UsedFrames(vm), FrameSet(vm));
  }

  lemma DisjointPair(used: set<nat>, rest: set<nat>)
    requires forall g: nat :: g in used <==> g in rest || g < 2
    requires 0 !in rest && 1 !in rest
    ensures |used| == 2 + |rest|
  {
    assert used == rest + {0, 1};
  }

  lemma UsedFrame(vm: Vm, g: nat)
    requires VmInv(vm)
    ensures g in UsedFrames(vm) <==> g < 2 || exists r :: r in Residents(vm) && FrameOf(vm, r) == g
    ensures g < 2 ==> !exists r :: r in Residents(vm) && FrameOf(vm, r) == g
  {
    hide Interval;
    ResidentFrames(vm);
    if g >= 2 && g in UsedFrames(vm) {
      assert Mapped(vm, g);
      var a: Addr, v: nat :| Maps(vm, a, v, g);
      assert (a, v) in Residents(vm) && FrameOf(vm, (a, v)) == g;
    }
  }

  /** One process never has all its pages present: there are fewer frames than pages. */
  lemma SomePageAbsent(vm: Vm, a: Addr) returns (v: nat)
    requires VmInv(vm) && a in vm.tables
    ensures v < PTES && !vm.tables[a][v].present
  {
    hide VmInv, FrameOf;
    if forall w: nat :: w < PTES ==> vm.tables[a][w].present {
      PageFrames(vm, a);
      Pigeonhole((w: nat) => FrameOf(vm, (a, w)), PTES, 2, FRAMES);
    }
    v :| v < PTES && !vm.tables[a][v].present;
  }

  /** n different numbers between lo and hi. */
  lemma Pigeonhole(f: nat -> nat, n: nat, lo: nat, hi: nat)
    requires lo <= hi && forall x: nat :: x < n ==> lo <= f(x) < hi
    requires forall x: nat, y: nat :: x < n && y < n && f(x) == f(y) ==> x == y
    ensures n <= hi - lo
  {
    hide Interval;
    InjectiveImage(Interval(0, n), f);
    SubsetSize(ImageOf(Interval(0, n), f), Interval(lo, hi));
    IntervalSize(lo, hi);
    IntervalSize(0, n);
  }

  lemma PageFrames(vm: Vm, a: Addr)
    requires VmInv(vm) && a in vm.tables && forall w: nat :: w < PTES ==> vm.tables[a][w].present
    ensures forall w: nat :: w < PTES ==> 2 <= FrameOf(vm, (a, w)) < FRAMES
    ensures forall x: nat, y: nat :: x < PTES && y < PTES && FrameOf(vm, (a, x)) == FrameOf(vm, (a, y)) ==> x == y
  {
    forall w: nat | w < PTES ensures Maps(vm, a, w, FrameOf(vm, (a, w))) {
    }
  }

  // ---------- the string printer ----------

  lemma WalkContinues(t: PageTable, mem: Memory, vaddr: Word, n: nat)
    requires WalkString(t, mem, vaddr, n).end == Unfinished && n > 0
    ensures t[Page(vaddr)].present && WalkString(t, mem, Wrap(vaddr + 1), n - 1).end == Unfinished
  {
    hide WordText;
  }

  lemma WrapOn(vaddr: Word, k: nat)
    requires k > 0
    ensures Wrap(Wrap(vaddr + 1) + (k - 1)) == Wrap(vaddr + k)
  {
  }

  /** A walk that has not ended after n words found all their pages present. */
  lemma {:induction false} UnfinishedWalk(t: PageTable, mem: Memory, vaddr: Word, n: nat, k: nat)
    requires WalkString(t, mem, vaddr, n).end == Unfinished && k < n
    ensures t[Page(Wrap(vaddr + k))].present
    decreases n
  {
    hide WalkString;
    WalkContinues(t, mem, vaddr, n);
    if k > 0 {
      UnfinishedWalk(t, mem, Wrap(vaddr + 1), n - 1, k - 1);
      WrapOn(vaddr, k);
    } else {
      assert Wrap(vaddr + 0) == vaddr;
    }
  }

  /** The endless loop of the string printer ends within one pass over the address space, in
      every paging state that keeps the frame ownership. */
  lemma WalkEnds(vm: Vm, a: Addr, vaddr: Word)
    requires VmInv(vm) && a in vm.tables
    ensures WalkString(vm.tables[a], vm.mem, vaddr, WALK).end != Unfinished
  {
    hide VmInv, WalkString;
    if WalkString(vm.tables[a], vm.mem, vaddr, WALK).end == Unfinished {
      var v := SomePageAbsent(vm, a);
      var k := Wrap(v * PAGE - vaddr);
      assert Wrap(vaddr + k) == v * PAGE;
      UnfinishedWalk(vm.tables[a], vm.mem, vaddr, WALK, k);
    }
  }

  /** Word i of a zero-terminated text at vaddr. */
  ghost predicate TextWord(view: map<nat, seq<Word>>, vaddr: Word, text: seq<Word>, i: nat)
    requires vaddr + i < 0x1_0000
  {
    && Page(vaddr + i) in view && |view[Page(vaddr + i)]| == PAGE
    && view[Page(vaddr + i)][Offset(vaddr + i)] == if i < |text| then text[i] else 0
  }

  /** The words from vaddr on hold the characters of text, one each, and then a zero. */
  ghost predicate HoldsText(view: map<nat, seq<Word>>, vaddr: Word, text: seq<Word>) {
    && vaddr + |text| < 0x1_0000
    && (forall i :: 0 <= i < |text| ==> 0 < text[i] < 128)
    && (forall i: nat :: i <= |text| ==> TextWord(view, vaddr, text, i))
  }

  /** The printer shows exactly the string it is pointed at. */
  lemma {:induction false} PrintsText(vm: Vm, a: Addr, vaddr: Word, text: seq<Word>, n: nat)
    requires VmInv(vm) && a in vm.tables && HoldsText(View(vm, a), vaddr, text) && n > |text|
    ensures WalkString(vm.tables[a], vm.mem, vaddr, n) == Walk(text, Terminated)
    decreases n
  {
    hide VmInv, View, HoldsText;
    FirstWord(View(vm, a), vaddr, text);
    WalkWord(vm, a, vaddr);
    if text != [] {
      PrintsText(vm, a, vaddr + 1, text[1..], n - 1);
      assert text == [text[0]] + text[1..];
    }
  }

  lemma FirstWord(view: map<nat, seq<Word>>, vaddr: Word, text: seq<Word>)
    requires HoldsText(view, vaddr, text)
    ensures TextWord(view, vaddr, text, 0)
    ensures text != [] ==> 0 < text[0] < 128 && vaddr + 1 < 0x1_0000 && HoldsText(view, vaddr + 1, text[1..])
  {
    assert TextWord(view, vaddr, text, 0);
    if text != [] {
      var rest, next: Word := text[1..], vaddr + 1;
      forall i: nat | i <= |rest| ensures TextWord(view, next, rest, i) {
        assert TextWord(view, vaddr, text, i + 1);
        assert next + i == vaddr + (i + 1);
      }
    }
  }

  lemma WalkWord(vm: Vm, a: Addr, vaddr: Word)
    requires VmInv(vm) && a in vm.tables && Page(vaddr) in View(vm, a)
    ensures var e := vm.tables[a][Page(vaddr)];
            e.present && e.frame < FRAMES
              && vm.mem[e.frame * PAGE + Offset(vaddr)] == View(vm, a)[Page(vaddr)][Offset(vaddr)]
  {
    hide VmInv;
    ReadView(vm, a, vaddr, Read);
  }
}
