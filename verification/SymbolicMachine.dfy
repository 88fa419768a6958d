/** What an assembly program means, read off its syntax tree: jumps go to labels, not to addresses.
    The words the linker emits, run by the processor, do the same. */
module SymbolicMachine {
  import opened Isa
  import opened Bits
  import opened Encoding
  import opened Linker
  import opened Paging
  import opened AddressSpaces
  import opened Kernel
  import opened Isolation

  /** A process at node `at` of the tree. */
  datatype Sym = Sym(at: nat, gprs: Regs, pages: map<nat, seq<Word>>, numPages: Word, blocks: seq<Block>)

  datatype SymOutcome = Runs(s: Sym) | NeedsPage(vaddr: Word) | Calls(s: Sym) | Stops | DividesByZero | LeavesCode

  /** The next node that is not a label, or the end. */
  function SkipLabels(items: seq<Item>, i: nat): (r: nat)
    requires i <= |items|
    ensures i <= r <= |items| && (r < |items| ==> !items[r].Label?)
    decreases |items| - i
  {
    if i < |items| && items[i].Label? then SkipLabels(items, i + 1) else i
  }

  function SetTo(s: Sym, reg: Reg, value: Word): Sym {
    s.(gprs := s.gprs[reg := value])
  }

  /** One instruction of the program. */
  function SymbolicStep(items: seq<Item>, s: Sym): (o: SymOutcome)
    requires s.at <= |items| && PagesOk(s.pages)
    ensures o.Runs? || o.Calls? ==> o.s.at <= |items| && PagesOk(o.s.pages)
  {
    var i := SkipLabels(items, s.at);
    if i == |items| || items[i].Data? then LeavesCode
    else
      var next := s.(at := i + 1);
      match items[i]
      case InstrR(op, dest, a, b) => RegisterStep(op, dest, s.gprs[a], s.gprs[b], next)
      case InstrI(JUMP, _, Name(name)) => Runs(s.(at := FirstLabel(items, name)))
      case InstrI(JUMP_COND, reg, Name(name)) =>
        Runs(if s.gprs[reg] == 1 then s.(at := FirstLabel(items, name)) else next)
      case InstrI(MOV, reg, Number(value)) => Runs(SetTo(next, reg, value))
      case InstrI(MOV, reg, Name(name)) => Runs(SetTo(next, reg, LabelAddress(items, name)))
      case _ => LeavesCode
  }

  function RegisterStep(op: OpR, dest: Reg, x: Word, y: Word, next: Sym): (o: SymOutcome)
    requires PagesOk(next.pages)
    ensures o.Runs? || o.Calls? ==> o.s.at == next.at && PagesOk(o.s.pages)
  {
    match op
    case ADD => Runs(SetTo(next, dest, Wrap(x + y)))
    case SUB => Runs(SetTo(next, dest, Wrap(x - y)))
    case MUL => Runs(SetTo(next, dest, Wrap(x * y)))
    case DIV => if y == 0 then DividesByZero else Runs(SetTo(next, dest, Quotient(x, y)))
    case CMP_EQUAL => Runs(SetTo(next, dest, if x == y then 1 else 0))
    case CMP_NEQ => Runs(SetTo(next, dest, if x != y then 1 else 0))
    case LOAD => if Page(x) !in next.pages then NeedsPage(x) else Runs(SetTo(next, dest, WordAt(next.pages, x)))
    case STORE => if Page(x) !in next.pages then NeedsPage(x) else Runs(next.(pages := PagesWith(next.pages, x, y)))
    case SYSCALL => Calls(next)
    case _ => Stops
  }

  // ---------- the machine that runs the emitted words ----------

  /** The machine with the node's address as its program counter. */
  function Concrete(items: seq<Item>, s: Sym): (m: Private)
    requires s.at <= |items|
    ensures m.pages == s.pages
  {
    Private(s.gprs, Wrap(AddressOf(items, s.at)), s.pages, s.numPages, s.blocks)
  }

  predicate IsInstr(item: Item) {
    item.InstrR? || item.InstrI?
  }

  /** What the parser builds: jumps name a label. */
  predicate WellFormed(items: seq<Item>) {
    forall i :: 0 <= i < |items| && items[i].InstrI? && items[i].opi != MOV ==> items[i].operand.Name?
  }

  /** The program fits the address space, and every immediate and every label that is used as one
      fits the nine bits the processor reads. */
  predicate Encodable(items: seq<Item>) {
    && AddressOf(items, |items|) <= 0x1_0000
    && LabelAddress(items, START) < 512
    && forall i :: 0 <= i < |items| && items[i].InstrI? ==> Resolve(items, items[i].operand) < 512
  }

  /** All instruction words are in memory as emitted. */
  ghost predicate Intact(items: seq<Item>, pages: map<nat, seq<Word>>)
    requires PagesOk(pages) && AddressOf(items, |items|) <= 0x1_0000
  {
    forall i :: 0 <= i < |items| && IsInstr(items[i]) ==> CodeAt(items, pages, i)
  }

  ghost predicate CodeAt(items: seq<Item>, pages: map<nat, seq<Word>>, i: nat)
    requires PagesOk(pages) && AddressOf(items, |items|) <= 0x1_0000 && i < |items| && IsInstr(items[i])
  {
    InstrAddress(items, i);
    Page(AddressOf(items, i)) in pages && WordAt(pages, AddressOf(items, i)) == Code(items, items[i])[0]
  }

  lemma InstrAddress(items: seq<Item>, i: nat)
    requires AddressOf(items, |items|) <= 0x1_0000 && i < |items| && IsInstr(items[i])
    ensures 2 <= AddressOf(items, i) < 0x1_0000
  {
    AddressGrows(items, i, |items|);
  }

  lemma {:induction false} SkipSame(items: seq<Item>, i: nat)
    requires i <= |items|
    ensures AddressOf(items, SkipLabels(items, i)) == AddressOf(items, i)
    decreases |items| - i
  {
    if i < |items| && items[i].Label? {
      SkipSame(items, i + 1);
    }
  }

  /** The machine's outcome that corresponds to a symbolic one. */
  ghost predicate Corresponds(items: seq<Item>, o: SymOutcome, p: Outcome) {
    match o
    case Runs(s) => s.at <= |items| && p == Continues(Concrete(items, s))
    case NeedsPage(vaddr) => p == Faults(vaddr)
    case Calls(s) => s.at <= |items| && p == Traps(Concrete(items, s))
    case Stops => p == Dies
    case DividesByZero => p == Divides
    case LeavesCode => true
  }

  lemma NextAddress(items: seq<Item>, i: nat)
    requires i < |items| && IsInstr(items[i])
    ensures Wrap(Wrap(AddressOf(items, i)) + 1) == Wrap(AddressOf(items, i + 1))
  {
  }

  lemma WrapSmall(x: nat)
    requires x < 0x1_0000
    ensures Wrap(x) == x
  {
  }

  /** The cycle executes the instruction that the word at the program counter encodes. */
  lemma CycleExecutes(items: seq<Item>, s: Sym, i: nat)
    requires s.at <= |items| && PagesOk(s.pages) && AddressOf(items, |items|) <= 0x1_0000
    requires i == SkipLabels(items, s.at) && i < |items| && IsInstr(items[i]) && CodeAt(items, s.pages, i)
    ensures var m, next := Concrete(items, s), Wrap(AddressOf(items, i + 1));
            PrivateCycle(m) == PrivatePerform(m, Execute(Decode(Code(items, items[i])[0]), s.gprs, next), next)
  {
    hide Decode, EncodeR, EncodeI, AddressOf, Wrap, SkipLabels, WordAt, Execute, PrivatePerform, Code;
    SkipSame(items, s.at);
    InstrAddress(items, i);
    NextAddress(items, i);
    WrapSmall(AddressOf(items, i));
  }

  lemma RegisterSimulated(items: seq<Item>, s: Sym, i: nat)
    requires s.at <= |items| && PagesOk(s.pages) && i < |items| && items[i].InstrR?
    ensures var m, next := Concrete(items, s), Wrap(AddressOf(items, i + 1));
            var item := items[i];
            Corresponds(items, RegisterStep(item.opr, item.dest, s.gprs[item.op1], s.gprs[item.op2], s.(at := i + 1)),
                        PrivatePerform(m, Execute(Decode(Code(items, item)[0]), s.gprs, next), next))
  {
    hide Decode, EncodeR, AddressOf, Wrap, WordAt, PagesWith, Quotient;
    var item := items[i];
    DecodeEncodeR(OpcodeR(item.opr), item.dest, item.op1, item.op2);
  }

  lemma ImmediateSimulated(items: seq<Item>, s: Sym, i: nat)
    requires s.at <= |items| && PagesOk(s.pages) && i < |items| && items[i].InstrI?
    requires WellFormed(items) && Encodable(items) && i == SkipLabels(items, s.at)
    ensures var m, next := Concrete(items, s), Wrap(AddressOf(items, i + 1));
            Corresponds(items, SymbolicStep(items, s),
                        PrivatePerform(m, Execute(Decode(Code(items, items[i])[0]), s.gprs, next), next))
  {
    hide Decode, EncodeI, AddressOf, Wrap, WordAt, PagesWith, SkipLabels, FirstLabel;
    var item := items[i];
    var imed := Resolve(items, item.operand);
    assert imed < 512;
    DecodeFitting(OpcodeI(item.opi), item.reg, imed);
    assert imed % 512 == imed;
  }

  /** One cycle of the processor on the emitted words does what one step of the program does. */
  lemma StepSimulated(items: seq<Item>, s: Sym)
    requires WellFormed(items) && Encodable(items) && s.at <= |items| && PagesOk(s.pages) && Intact(items, s.pages)
    ensures Corresponds(items, SymbolicStep(items, s), PrivateCycle(Concrete(items, s)))
  {
    hide Decode, AddressOf, Wrap, SkipLabels, WordAt, RegisterStep, Execute, Code, PrivatePerform, PrivateCycle,
      FirstLabel, Corresponds, CodeAt;
    var i := SkipLabels(items, s.at);
    if i < |items| && IsInstr(items[i]) {
      assert CodeAt(items, s.pages, i);
      CycleExecutes(items, s, i);
      if items[i].InstrR? {
        RegisterSimulated(items, s, i);
      } else {
        ImmediateSimulated(items, s, i);
      }
    } else {
      CodeLeft(items, s);
    }
  }

  lemma CodeLeft(items: seq<Item>, s: Sym)
    requires s.at <= |items| && PagesOk(s.pages)
    requires var i := SkipLabels(items, s.at); i < |items| ==> !IsInstr(items[i])
    ensures SymbolicStep(items, s) == LeavesCode && forall p :: Corresponds(items, LeavesCode, p)
  {
  }

  /** The processor decodes an immediate instruction as it was written exactly when its immediate
      is below 512. */
  lemma InstructionExactly(items: seq<Item>, item: Item)
    requires item.InstrI?
    ensures var imed := Resolve(items, item.operand);
            Decode(Code(items, item)[0]) == DecodeI(OpcodeI(item.opi), item.reg, imed) <==> imed < 512
  {
    OrZeros();
    hide EncodeI, GetBits, Or;
    var imed := Resolve(items, item.operand);
    DecodeEncodeI(OpcodeI(item.opi), item.reg, imed);
    if imed < 512 {
      DecodeFitting(OpcodeI(item.opi), item.reg, imed);
    }
  }

  // ---------- whole runs ----------

  /** One cycle of a program that survives it; a page it needs arrives zero-filled. */
  ghost function SymbolicAdvance(items: seq<Item>, s: Sym, time: Word): (r: Sym)
    requires s.at <= |items| && PagesOk(s.pages)
    ensures r.at <= |items| && PagesOk(r.pages)
  {
    match SymbolicStep(items, s)
    case Runs(r) => r
    case NeedsPage(vaddr) => s.(pages := s.pages[Page(vaddr) := ZEROS])
    case Calls(r) => SymbolicCall(r, time)
    case _ => s
  }

  ghost function SymbolicCall(s: Sym, time: Word): (r: Sym)
    requires PagesOk(s.pages)
    ensures r.at == s.at && PagesOk(r.pages)
  {
    var m := PrivateCall(Private(s.gprs, 0, s.pages, s.numPages, s.blocks), time);
    CallKeepsPages(Private(s.gprs, 0, s.pages, s.numPages, s.blocks), time);
    Sym(s.at, m.gprs, m.pages, m.numPages, m.blocks)
  }

  lemma CallKeepsPages(m: Private, time: Word)
    requires PagesOk(m.pages)
    ensures PagesOk(PrivateCall(m, time).pages)
  {
    hide FindBlock;
  }

  /** A system call neither reads nor moves the program counter. */
  lemma CallAnywhere(m: Private, pc: Word, time: Word)
    ensures PrivateCall(m.(pc := pc), time) == PrivateCall(m, time).(pc := pc)
  {
    hide FindBlock, AnyMapped;
  }

  /** The step writes an instruction word, or gives back a page that holds one. */
  ghost predicate TouchesCode(items: seq<Item>, s: Sym)
    requires s.at <= |items| && PagesOk(s.pages) && AddressOf(items, |items|) <= 0x1_0000
  {
    var i := SkipLabels(items, s.at);
    && i < |items| && items[i].InstrR?
    && exists k :: 0 <= k < |items| && IsInstr(items[k])
          && ((items[i].opr == STORE && s.gprs[items[i].op1] == AddressOf(items, k))
              || (items[i].opr == SYSCALL && s.gprs[0] == 5 && PageGone(items, s, k)))
  }

  /** The free call of this state takes away the page of node k. */
  ghost predicate PageGone(items: seq<Item>, s: Sym, k: nat)
    requires PagesOk(s.pages) && AddressOf(items, |items|) <= 0x1_0000 && k < |items| && IsInstr(items[k])
  {
    InstrAddress(items, k);
    Page(AddressOf(items, k)) !in PrivateFree(Private(s.gprs, 0, s.pages, s.numPages, s.blocks)).pages
  }

  lemma AdvanceSimulated(items: seq<Item>, s: Sym, time: Word)
    requires WellFormed(items) && Encodable(items) && s.at <= |items| && PagesOk(s.pages) && Intact(items, s.pages)
    requires SymbolicStep(items, s) != LeavesCode
    ensures Advance(Concrete(items, s), time) == Concrete(items, SymbolicAdvance(items, s, time))
  {
    hide SymbolicStep, PrivateCycle, AddressOf, Wrap, Intact, PrivateCall, Encodable, WellFormed;
    StepSimulated(items, s);
    match SymbolicStep(items, s)
    case Calls(r) =>
      CallAnywhere(Private(r.gprs, 0, r.pages, r.numPages, r.blocks), Wrap(AddressOf(items, r.at)), time);
    case _ =>
  }

  // ---------- the code stays as it is ----------

  lemma StoreElsewhere(pages: map<nat, seq<Word>>, x: Word, w: Word, a: Word)
    requires PagesOk(pages) && Page(x) in pages && Page(a) in pages
    ensures a != x ==> WordAt(PagesWith(pages, x, w), a) == WordAt(pages, a)
    ensures WordAt(PagesWith(pages, x, w), x) == w
  {
  }

  lemma IntactAfterStore(items: seq<Item>, pages: map<nat, seq<Word>>, x: Word, w: Word)
    requires PagesOk(pages) && Page(x) in pages && AddressOf(items, |items|) <= 0x1_0000 && Intact(items, pages)
    requires forall k :: 0 <= k < |items| && IsInstr(items[k]) ==> x != AddressOf(items, k)
    ensures Intact(items, PagesWith(pages, x, w))
  {
    hide WordAt, PagesWith, AddressOf, Code;
    forall i | 0 <= i < |items| && IsInstr(items[i]) ensures CodeAt(items, PagesWith(pages, x, w), i) {
      assert CodeAt(items, pages, i);
      InstrAddress(items, i);
      StoreElsewhere(pages, x, w, AddressOf(items, i));
      KeysOfStore(pages, x, w);
    }
  }

  lemma KeysOfStore(pages: map<nat, seq<Word>>, x: Word, w: Word)
    requires PagesOk(pages) && Page(x) in pages
    ensures PagesWith(pages, x, w).Keys == pages.Keys
  {
  }

  /** Pages that are kept keep the code on them. */
  lemma IntactAfterLoss(items: seq<Item>, pages: map<nat, seq<Word>>, fewer: map<nat, seq<Word>>)
    requires PagesOk(pages) && PagesOk(fewer) && AddressOf(items, |items|) <= 0x1_0000 && Intact(items, pages)
    requires forall v :: v in fewer && v in pages ==> fewer[v] == pages[v]
    requires forall k :: 0 <= k < |items| && IsInstr(items[k]) ==> CodePage(items, k) in fewer
    ensures Intact(items, fewer)
  {
    hide AddressOf, Code;
    forall i | 0 <= i < |items| && IsInstr(items[i]) ensures CodeAt(items, fewer, i) {
      assert CodeAt(items, pages, i);
    }
  }

  function CodePage(items: seq<Item>, k: nat): nat
    requires AddressOf(items, |items|) <= 0x1_0000 && k < |items| && IsInstr(items[k])
  {
    InstrAddress(items, k);
    Page(AddressOf(items, k))
  }

  lemma CallPages(m: Private, time: Word)
    requires PagesOk(m.pages)
    ensures PrivateCall(m, time).pages == if m.gprs[0] == 5 then PrivateFree(m).pages else m.pages
    ensures var pages := PrivateFree(m).pages;
            PagesOk(pages) && forall v :: v in pages ==> v in m.pages && pages[v] == m.pages[v]
  {
    hide FindBlock, AnyMapped;
  }

  lemma IntactAfterCall(items: seq<Item>, s: Sym, time: Word)
    requires AddressOf(items, |items|) <= 0x1_0000 && s.at <= |items| && PagesOk(s.pages) && Intact(items, s.pages)
    requires s.gprs[0] == 5 ==> forall k :: 0 <= k < |items| && IsInstr(items[k]) ==> !PageGone(items, s, k)
    ensures Intact(items, SymbolicCall(s, time).pages)
  {
    hide AddressOf, Code, Intact, PrivateCall, PrivateFree;
    var m := Private(s.gprs, 0, s.pages, s.numPages, s.blocks);
    CallPages(m, time);
    if s.gprs[0] == 5 {
      forall k | 0 <= k < |items| && IsInstr(items[k]) ensures CodePage(items, k) in PrivateFree(m).pages {
        assert !PageGone(items, s, k);
      }
      IntactAfterLoss(items, s.pages, PrivateFree(m).pages);
    }
  }

  lemma IntactAfterFault(items: seq<Item>, pages: map<nat, seq<Word>>, vaddr: Word)
    requires PagesOk(pages) && AddressOf(items, |items|) <= 0x1_0000 && Intact(items, pages) && Page(vaddr) !in pages
    ensures Intact(items, pages[Page(vaddr) := ZEROS])
  {
    hide AddressOf, Code, Intact;
    forall k | 0 <= k < |items| && IsInstr(items[k]) ensures CodePage(items, k) in pages {
      IntactAt(items, pages, k);
    }
    IntactAfterLoss(items, pages, pages[Page(vaddr) := ZEROS]);
  }

  lemma IntactAt(items: seq<Item>, pages: map<nat, seq<Word>>, k: nat)
    requires PagesOk(pages) && AddressOf(items, |items|) <= 0x1_0000 && Intact(items, pages) && k < |items|
             && IsInstr(items[k])
    ensures CodeAt(items, pages, k)
  {
  }

  /** The code survives every step except a store to an instruction word and the release of a page
      of code. */
  lemma IntactKept(items: seq<Item>, s: Sym, time: Word)
    requires AddressOf(items, |items|) <= 0x1_0000 && s.at <= |items| && PagesOk(s.pages) && Intact(items, s.pages)
    requires !TouchesCode(items, s)
    ensures Intact(items, SymbolicAdvance(items, s, time).pages)
  {
    hide AddressOf, Code, Intact, PrivateCall, PrivateFree, WordAt, PagesWith, SkipLabels, Wrap, SymbolicCall,
      PageGone, FirstLabel, LabelAddress;
    var i := SkipLabels(items, s.at);
    match SymbolicStep(items, s)
    case Runs(r) =>
      if items[i].InstrR? && items[i].opr == STORE {
        IntactAfterStore(items, s.pages, s.gprs[items[i].op1], s.gprs[items[i].op2]);
      }
    case NeedsPage(vaddr) => IntactAfterFault(items, s.pages, vaddr);
    case Calls(r) => IntactCall(items, s, time);
    case _ =>
  }

  lemma IntactCall(items: seq<Item>, s: Sym, time: Word)
    requires AddressOf(items, |items|) <= 0x1_0000 && s.at <= |items| && PagesOk(s.pages) && Intact(items, s.pages)
    requires !TouchesCode(items, s) && SymbolicStep(items, s).Calls?
    ensures Intact(items, SymbolicAdvance(items, s, time).pages)
  {
    hide AddressOf, Code, Intact, PrivateCall, PrivateFree, WordAt, PagesWith, SkipLabels, Wrap, SymbolicCall,
      PageGone, FirstLabel, LabelAddress;
    var i, r := SkipLabels(items, s.at), SymbolicStep(items, s).s;
    assert r == s.(at := i + 1) && items[i].opr == SYSCALL;
    forall k | 0 <= k < |items| && IsInstr(items[k]) && s.gprs[0] == 5 ensures !PageGone(items, r, k) {
      SameGone(items, s, i + 1, k);
    }
    IntactAfterCall(items, r, time);
  }

  lemma SameGone(items: seq<Item>, s: Sym, at: nat, k: nat)
    requires PagesOk(s.pages) && AddressOf(items, |items|) <= 0x1_0000 && k < |items| && IsInstr(items[k])
    ensures PageGone(items, s.(at := at), k) == PageGone(items, s, k)
  {
  }

  /** No step of the run leaves the code, writes into it or gives it back. */
  ghost predicate Harmless(items: seq<Item>, s: Sym, times: seq<Word>)
    requires AddressOf(items, |items|) <= 0x1_0000 && s.at <= |items| && PagesOk(s.pages)
    decreases |times|
  {
    times != [] ==>
      SymbolicStep(items, s) != LeavesCode && !TouchesCode(items, s)
        && Harmless(items, SymbolicAdvance(items, s, times[0]), times[1..])
  }

  ghost function SymbolicRun(items: seq<Item>, s: Sym, times: seq<Word>): (r: Sym)
    requires s.at <= |items| && PagesOk(s.pages)
    ensures r.at <= |items| && PagesOk(r.pages)
    decreases |times|
  {
    if times == [] then s else SymbolicRun(items, SymbolicAdvance(items, s, times[0]), times[1..])
  }

  /** The emitted words, run by the processor, follow the program step by step: same registers,
      same memory, and the program counter at the node's address, all through the run. */
  lemma {:induction false} RunSimulated(items: seq<Item>, s: Sym, times: seq<Word>)
    requires WellFormed(items) && Encodable(items) && s.at <= |items| && PagesOk(s.pages)
    requires Intact(items, s.pages) && Harmless(items, s, times)
    ensures PrivateRun(Concrete(items, s), times) == Concrete(items, SymbolicRun(items, s, times))
    ensures Intact(items, SymbolicRun(items, s, times).pages)
    decreases |times|
  {
    hide Concrete, Intact, Advance, SymbolicAdvance, SymbolicStep, TouchesCode, WellFormed, AddressOf;
    if times != [] {
      AdvanceSimulated(items, s, times[0]);
      IntactKept(items, s, times[0]);
      RunSimulated(items, SymbolicAdvance(items, s, times[0]), times[1..]);
    }
  }

  /** Where a freshly loaded program starts. */
  function Start(items: seq<Item>, m: Private): Sym
    requires PagesOk(m.pages)
  {
    Sym(FirstLabel(items, START), m.gprs, m.pages, m.numPages, m.blocks)
  }

  /** From address 1: the first cycle jumps to the label `_start`, and the program runs from there. */
  lemma ProgramFromBoot(items: seq<Item>, m: Private, time: Word, times: seq<Word>)
    requires WellFormed(items) && Encodable(items) && Link(items) == Binary(Image(items))
    requires m.pc == 1 && PagesOk(m.pages) && ShowsImage(m.pages, Image(items), PagesNeeded(|Image(items)|))
    requires Harmless(items, Start(items, m), times)
    ensures PrivateRun(m, [time] + times) == Concrete(items, SymbolicRun(items, Start(items, m), times))
  {
    hide Harmless, SymbolicRun, Advance, Encodable, WellFormed, ShowsImage, Image, Intact, Concrete;
    ImageIntact(items, m.pages);
    FirstJump(items, m, time);
    RunTimes(m, time, times);
    RunSimulated(items, Start(items, m), times);
  }

  lemma ImageWord(items: seq<Item>, pages: map<nat, seq<Word>>, a: Word)
    requires PagesOk(pages) && ShowsImage(pages, Image(items), PagesNeeded(|Image(items)|)) && a < |Image(items)|
    ensures Page(a) in pages && WordAt(pages, a) == Image(items)[a]
  {
    hide Image;
    assert Page(a) < PagesNeeded(|Image(items)|);
    assert Page(a) * PAGE + Offset(a) == a;
  }

  lemma ImageIntact(items: seq<Item>, pages: map<nat, seq<Word>>)
    requires Encodable(items) && PagesOk(pages) && ShowsImage(pages, Image(items), PagesNeeded(|Image(items)|))
    ensures Intact(items, pages)
  {
    hide Image, ShowsImage, WordAt, AddressOf, Code, Link;
    forall i | 0 <= i < |items| && IsInstr(items[i]) ensures CodeAt(items, pages, i) {
      InstrAddress(items, i);
      AddressIsPosition(items, i);
      ImageWord(items, pages, AddressOf(items, i));
    }
  }

  lemma FirstJump(items: seq<Item>, m: Private, time: Word)
    requires Encodable(items) && Defined(items, START)
    requires m.pc == 1 && PagesOk(m.pages) && ShowsImage(m.pages, Image(items), PagesNeeded(|Image(items)|))
    ensures PrivateCycle(m) == Continues(Concrete(items, Start(items, m)))
    ensures Advance(m, time) == Concrete(items, Start(items, m))
  {
    hide ShowsImage, WordAt, EncodeI, AddressOf, Decode, FirstLabel;
    ImageWord(items, m.pages, 1);
    DecodeFitting(OpcodeI(JUMP), 0, LabelAddress(items, START));
    assert LabelAddress(items, START) % 512 == LabelAddress(items, START);
  }
}
