/** Physical frames, page tables and the translation of virtual addresses. */
module Paging {
  import opened Bits
  import opened Isa

  const PAGE := 16
  const PTES := 4096
  const FRAMES := 2048
  const MEMORY := 32768

  // ---------- page-table entries ----------

  datatype Pte = Pte(frame: nat, present: bool, readable: bool, writable: bool, executable: bool,
                     dirty: bool, accessed: bool)

  const EMPTY := Pte(0, false, false, false, false, false, false)

  function Bit(b: bool): nat {
    if b then 1 else 0
  }

  /** The 32-bit layout of an entry: frame number in bits 0-11, then one bit per flag. */
  function Pack(p: Pte): nat {
    p.frame + 0x1000 * Bit(p.present) + 0x2000 * Bit(p.readable) + 0x4000 * Bit(p.writable)
    + 0x8000 * Bit(p.executable) + 0x1_0000 * Bit(p.dirty) + 0x2_0000 * Bit(p.accessed)
  }

  lemma PowersOfTwo()
    ensures Pow2(0) == 1 && Pow2(1) == 2 && Pow2(4) == 16 && Pow2(12) == 0x1000 && Pow2(13) == 0x2000
    ensures Pow2(14) == 0x4000 && Pow2(15) == 0x8000 && Pow2(16) == 0x1_0000 && Pow2(17) == 0x2_0000
  {
  }

  /** A number with part g at the field of weight p and size l. */
  lemma FieldAt(n: nat, pos: nat, length: nat, p: nat, l: nat, hi: nat, g: nat, lo: nat, value: nat)
    requires p == Pow2(pos) && l == Pow2(length)
    requires g < l && lo < p && value < l && n == (hi * l + g) * p + lo
    ensures GetBits(n, pos, length) == g
    ensures SetBits(n, pos, length, value) == n - g * p + value * p
  {
    hide Pow2;
    DivMod(hi * l + g, p, lo);
    DivMod(hi, l, g);
    DivMod(0, l, value);
  }

  /** Bits 12-17 of the packed entry, as numbers. */
  lemma FlagAt(n: nat, pos: nat, p: nat, hi: nat, g: nat, lo: nat, value: nat)
    requires p == Pow2(pos) && g < 2 && value < 2 && lo < p && n == (2 * hi + g) * p + lo
    ensures GetBits(n, pos, 1) == g && SetBits(n, pos, 1, value) == n - g * p + value * p
  {
    hide Pow2;
    PowersOfTwo();
    FieldAt(n, pos, 1, p, 2, hi, g, lo, value);
  }

  /** Reading the frame field of the packed entry gives the frame; writing it updates the record. */
  lemma PackedFrame(e: Pte, frame: nat)
    requires e.frame < 0x1000 && frame < 0x1000
    ensures GetBits(Pack(e), 0, 12) == e.frame && SetBits(Pack(e), 0, 12, frame) == Pack(e.(frame := frame))
  {
    hide Pow2, GetBits, SetBits;
    PowersOfTwo();
    var high := Bit(e.present) + 2 * Bit(e.readable) + 4 * Bit(e.writable)
              + 8 * Bit(e.executable) + 16 * Bit(e.dirty) + 32 * Bit(e.accessed);
    FieldAt(Pack(e), 0, 12, 1, 0x1000, high, e.frame, 0, frame);
  }

  /** The same for presence and permissions. */
  lemma PackedRights(e: Pte, b: bool)
    requires e.frame < 0x1000
    ensures GetBits(Pack(e), 12, 1) == Bit(e.present) && SetBits(Pack(e), 12, 1, Bit(b)) == Pack(e.(present := b))
    ensures GetBits(Pack(e), 13, 1) == Bit(e.readable) && SetBits(Pack(e), 13, 1, Bit(b)) == Pack(e.(readable := b))
    ensures GetBits(Pack(e), 14, 1) == Bit(e.writable) && SetBits(Pack(e), 14, 1, Bit(b)) == Pack(e.(writable := b))
    ensures GetBits(Pack(e), 15, 1) == Bit(e.executable) && SetBits(Pack(e), 15, 1, Bit(b)) == Pack(e.(executable := b))
  {
    hide Pow2, GetBits, SetBits;
    PowersOfTwo();
    var n, f := Pack(e), e.frame;
    var p, r, w, x, d, a := Bit(e.present), Bit(e.readable), Bit(e.writable), Bit(e.executable), Bit(e.dirty),
      Bit(e.accessed);
    FlagAt(n, 12, 0x1000, r + 2 * w + 4 * x + 8 * d + 16 * a, p, f, Bit(b));
    FlagAt(n, 13, 0x2000, w + 2 * x + 4 * d + 8 * a, r, f + 0x1000 * p, Bit(b));
    FlagAt(n, 14, 0x4000, x + 2 * d + 4 * a, w, f + 0x1000 * p + 0x2000 * r, Bit(b));
    FlagAt(n, 15, 0x8000, d + 2 * a, x, f + 0x1000 * p + 0x2000 * r + 0x4000 * w, Bit(b));
  }

  /** The same for the bits the hardware sets. */
  lemma PackedUsage(e: Pte, b: bool)
    requires e.frame < 0x1000
    ensures GetBits(Pack(e), 16, 1) == Bit(e.dirty) && SetBits(Pack(e), 16, 1, Bit(b)) == Pack(e.(dirty := b))
    ensures GetBits(Pack(e), 17, 1) == Bit(e.accessed) && SetBits(Pack(e), 17, 1, Bit(b)) == Pack(e.(accessed := b))
  {
    hide Pow2, GetBits, SetBits;
    PowersOfTwo();
    var n, f := Pack(e), e.frame;
    var p, r, w, x, d, a := Bit(e.present), Bit(e.readable), Bit(e.writable), Bit(e.executable), Bit(e.dirty),
      Bit(e.accessed);
    FlagAt(n, 16, 0x1_0000, a, d, f + 0x1000 * p + 0x2000 * r + 0x4000 * w + 0x8000 * x, Bit(b));
    FlagAt(n, 17, 0x2_0000, 0, a, f + 0x1000 * p + 0x2000 * r + 0x4000 * w + 0x8000 * x + 0x1_0000 * d, Bit(b));
  }

  // ---------- translation ----------

  type PageTable = t: seq<Pte> | |t| == PTES witness seq(PTES, _ => EMPTY)

  datatype AccessKind = Fetch | Read | Write

  datatype Access = Granted(paddr: nat) | PageFault | ProtectionFault

  function Page(vaddr: Word): (p: nat)
    ensures p < PTES
  {
    vaddr / PAGE
  }

  function Offset(vaddr: Word): (o: nat)
    ensures o < PAGE
  {
    vaddr % PAGE
  }

  /** The memory-management unit: presence, then permission, then the frame number in place of
      the page number. */
  function Translate(t: PageTable, vaddr: Word, kind: AccessKind): Access {
    var e := t[Page(vaddr)];
    if !e.present then PageFault
    else if kind == Read && !e.readable then ProtectionFault
    else if kind == Write && !e.writable then ProtectionFault
    else if kind == Fetch && !e.executable then ProtectionFault
    else Granted(e.frame * PAGE + Offset(vaddr))
  }

  /** The translation builds the address by writing the frame number over bits 4-15, as the
      kernel's own shift-and-or does. */
  lemma TranslateIsSetBits(vaddr: Word, frame: nat)
    requires frame < 0x1000
    ensures SetBits(vaddr, 4, 12, frame) == frame * PAGE + Offset(vaddr)
    ensures SetBits(vaddr, 4, 12, frame) < MEMORY <==> frame < FRAMES
  {
    hide Pow2;
    PowersOfTwo();
  }

  function Mark(e: Pte, kind: AccessKind): Pte {
    Pte(e.frame, e.present, e.readable, e.writable, e.executable, e.dirty || kind == Write, true)
  }

  /** The accessed bit, and for a write the dirty bit, set by a granted access. */
  function Marked(t: PageTable, vaddr: Word, kind: AccessKind): PageTable {
    t[Page(vaddr) := Mark(t[Page(vaddr)], kind)]
  }

  /** A granted access marks its page as accessed, and as dirty if it writes; a dirty page stays dirty, and
      nothing else of the table changes. */
  lemma MarkedExactly(t: PageTable, vaddr: Word, kind: AccessKind)
    ensures var r, page := Marked(t, vaddr, kind), vaddr / 16;
            && r[page].accessed && (r[page].dirty <==> t[page].dirty || kind == Write)
            && r[page].(accessed := t[page].accessed, dirty := t[page].dirty) == t[page]
            && forall v :: 0 <= v < 4096 && v != page ==> r[v] == t[v]
  {
    assert Page(vaddr) == vaddr / 16;
  }

  // ---------- the paging state ----------

  type Addr = nat

  type Frames = f: seq<bool> | |f| == FRAMES witness seq(FRAMES, _ => false)

  type Memory = m: seq<Word> | |m| == MEMORY witness seq(MEMORY, _ => 0)

  /** Frame bitmap, physical memory, and the page table of every live process, keyed by the
      address of the process record that contains it. */
  datatype Vm = Vm(frames: Frames, mem: Memory, tables: map<Addr, PageTable>)

  /** Page v of process a is present in frame f. */
  ghost predicate Maps(vm: Vm, a: Addr, v: nat, f: nat) {
    a in vm.tables && v < PTES && vm.tables[a][v].present && vm.tables[a][v].frame == f
  }

  /** Some live page is in frame f. */
  ghost predicate Mapped(vm: Vm, f: nat) {
    exists a: Addr, v: nat :: Maps(vm, a, v, f)
  }

  /** Frame ownership: every present page sits in its own allocated frame, fully accessible, and
      every allocated frame beyond the reserved two holds a present page. */
  ghost predicate VmInv(vm: Vm) {
    && vm.frames[0] && vm.frames[1]
    && (forall a: Addr, v: nat, f: nat :: Maps(vm, a, v, f) ==>
          2 <= f < FRAMES && vm.frames[f] && AllRights(vm.tables[a][v]))
    && (forall a: Addr, v: nat, b: Addr, w: nat, f: nat :: Maps(vm, a, v, f) && Maps(vm, b, w, f) ==> a == b && v == w)
    && (forall f: nat :: 2 <= f < FRAMES && vm.frames[f] ==> Mapped(vm, f))
  }

  ghost predicate AllRights(e: Pte) {
    e.readable && e.writable && e.executable
  }

  // ---------- frames ----------

  /** The lowest free frame at or after i, or FRAMES. */
  function FirstFree(frames: Frames, i: nat): (f: nat)
    requires i <= FRAMES
    ensures i <= f <= FRAMES && (f < FRAMES ==> !frames[f])
    ensures forall j :: i <= j < f ==> frames[j]
    decreases FRAMES - i
  {
    if i == FRAMES || !frames[i] then i else FirstFree(frames, i + 1)
  }

  ghost predicate HasFrame(vm: Vm) {
    exists f :: 2 <= f < FRAMES && !vm.frames[f]
  }

  lemma FirstFreeFinds(vm: Vm)
    ensures FirstFree(vm.frames, 2) < FRAMES <==> HasFrame(vm)
  {
  }

  // ---------- single-page operations ----------

  function Present(frame: nat): Pte {
    Pte(frame, true, true, true, true, false, false)
  }

  /** Page v of process a placed in the free frame f. */
  function Place(vm: Vm, a: Addr, v: nat, f: nat): Vm
    requires a in vm.tables && v < PTES && f < FRAMES
  {
    Vm(vm.frames[f := true], vm.mem, vm.tables[a := vm.tables[a][v := Present(f)]])
  }

  /** The frame of a present entry marked free. */
  function Released(frames: Frames, e: Pte): Frames {
    if e.present && e.frame < FRAMES then frames[e.frame := false] else frames
  }

  /** Page v of process a dropped, and its frame with it if it was present. */
  function Drop(vm: Vm, a: Addr, v: nat): Vm
    requires a in vm.tables && v < PTES
  {
    Vm(Released(vm.frames, vm.tables[a][v]), vm.mem, vm.tables[a := vm.tables[a][v := EMPTY]])
  }

  /** The words of frame f replaced. */
  function Fill(mem: Memory, f: nat, words: seq<Word>): Memory
    requires f < FRAMES && |words| == PAGE
  {
    mem[..f * PAGE] + words + mem[f * PAGE + PAGE..]
  }

  lemma FillFrames(mem: Memory, f: nat, words: seq<Word>, g: nat)
    requires f < FRAMES && |words| == PAGE && g < FRAMES
    ensures FrameWords(Fill(mem, f, words), g) == if g == f then words else FrameWords(mem, g)
  {
  }

  function FrameWords(mem: Memory, f: nat): (w: seq<Word>)
    requires f < FRAMES
    ensures |w| == PAGE
  {
    mem[f * PAGE..f * PAGE + PAGE]
  }

  const ZEROS: seq<Word> := [0, 0, 0, 0, 0, 0, 0, 0, 0, 0, 0, 0, 0, 0, 0, 0]

  /** Page v of process a placed in frame f with the given contents. */
  function PlaceFilled(vm: Vm, a: Addr, v: nat, f: nat, words: seq<Word>): (r: Vm)
    requires a in vm.tables && v < PTES && f < FRAMES && |words| == PAGE
  {
    Vm(vm.frames[f := true], Fill(vm.mem, f, words), vm.tables[a := vm.tables[a][v := Present(f)]])
  }

  /** A page fault served: the lowest free frame, zero-filled. */
  function DemandPage(vm: Vm, a: Addr, v: nat): (r: Vm)
    requires a in vm.tables && v < PTES && FirstFree(vm.frames, 2) < FRAMES
  {
    PlaceFilled(vm, a, v, FirstFree(vm.frames, 2), ZEROS)
  }

  // ---------- ownership is kept ----------

  lemma PlaceKeeps(vm: Vm, a: Addr, v: nat, f: nat)
    requires VmInv(vm) && a in vm.tables && v < PTES && 2 <= f < FRAMES
    requires !vm.frames[f] && !vm.tables[a][v].present
    ensures VmInv(Place(vm, a, v, f))
  {
    var r := Place(vm, a, v, f);
    assert Maps(r, a, v, f);
    forall b: Addr, w: nat, g: nat | Maps(r, b, w, g)
      ensures (b == a && w == v && g == f) || (Maps(vm, b, w, g) && g != f)
    {
    }
    forall g: nat | 2 <= g < FRAMES && r.frames[g] ensures Mapped(r, g) {
      if g != f {
        var b: Addr, w: nat :| Maps(vm, b, w, g);
        assert Maps(r, b, w, g);
      }
    }
  }

  lemma DropKeeps(vm: Vm, a: Addr, v: nat)
    requires VmInv(vm) && a in vm.tables && v < PTES
    ensures VmInv(Drop(vm, a, v))
  {
    var r, e := Drop(vm, a, v), vm.tables[a][v];
    assert e.present ==> Maps(vm, a, v, e.frame);
    forall b: Addr, w: nat, g: nat | Maps(r, b, w, g)
      ensures Maps(vm, b, w, g) && !(b == a && w == v) && r.frames[g]
    {
      assert Maps(vm, b, w, g);
      assert e.present ==> e.frame != g;
    }
    forall g: nat | 2 <= g < FRAMES && r.frames[g] ensures Mapped(r, g) {
      var b: Addr, w: nat :| Maps(vm, b, w, g);
      assert Maps(r, b, w, g);
    }
  }
}
