/** One processor cycle of a process, in plain numbers: the word at the program counter and what it
    does to registers and memory. */
module MachineCycle {
  import opened Isa
  import opened Paging
  import opened Isolation
  import opened InstructionSet

  /** The word that a process finds at an address: sixteen words a page. */
  ghost predicate Holds(m: Private, vaddr: Word, w: Word) {
    vaddr / 16 in m.pages && |m.pages[vaddr / 16]| == 16 && m.pages[vaddr / 16][vaddr % 16] == w
  }

  lemma HeldWord(m: Private, vaddr: Word, w: Word)
    requires PagesOk(m.pages)
    ensures Holds(m, vaddr, w) <==> Page(vaddr) in m.pages && WordAt(m.pages, vaddr) == w
  {
  }

  /** The instruction at the program counter. */
  lemma Executed(m: Private, w: Word)
    requires PagesOk(m.pages) && Holds(m, m.pc, w)
    ensures PrivateCycle(m) == PrivatePerform(m, Execute(Decode(w), m.gprs, (m.pc + 1) % 65536), (m.pc + 1) % 65536)
  {
    hide Decode, Execute, PrivatePerform;
    HeldWord(m, m.pc, w);
  }

  /** Opcode 15 loads: the destination gets the word at the address in the first operand, or that page
      is asked for. */
  lemma LoadCycle(m: Private, dest: Reg, a: Reg, b: Reg, value: Word)
    requires PagesOk(m.pages) && Holds(m, m.pc, 512 * 15 + 64 * dest + 8 * a + b)
    ensures Holds(m, m.gprs[a], value) ==>
              PrivateCycle(m) == Continues(m.(gprs := m.gprs[dest := value], pc := (m.pc + 1) % 65536))
    ensures m.gprs[a] / 16 !in m.pages ==> PrivateCycle(m) == Faults(m.gprs[a])
  {
    hide Decode, Execute;
    Executed(m, 512 * 15 + 64 * dest + 8 * a + b);
    RegisterInstruction(15, dest, a, b, m.gprs, (m.pc + 1) % 65536);
    HeldWord(m, m.gprs[a], value);
  }

  /** Opcode 16 stores: the word at the address in the first operand becomes that of the second, and no
      other word changes; or that page is asked for. */
  lemma StoreCycle(m: Private, dest: Reg, a: Reg, b: Reg)
    requires PagesOk(m.pages) && Holds(m, m.pc, 512 * 16 + 64 * dest + 8 * a + b)
    ensures m.gprs[a] / 16 in m.pages ==>
              var x, o := m.gprs[a], PrivateCycle(m);
              && o.Continues? && o.m == m.(pages := o.m.pages, pc := (m.pc + 1) % 65536)
              && o.m.pages.Keys == m.pages.Keys && Holds(o.m, x, m.gprs[b])
              && forall v: Word, w: Word :: v != x ==> (Holds(o.m, v, w) <==> Holds(m, v, w))
    ensures m.gprs[a] / 16 !in m.pages ==> PrivateCycle(m) == Faults(m.gprs[a])
  {
    hide Decode, Execute;
    Executed(m, 512 * 16 + 64 * dest + 8 * a + b);
    RegisterInstruction(16, dest, a, b, m.gprs, (m.pc + 1) % 65536);
    if m.gprs[a] / 16 in m.pages {
      forall v: Word, w: Word | v != m.gprs[a] ensures Holds(PrivateCycle(m).m, v, w) <==> Holds(m, v, w) {
        OtherWord(m.gprs[a], v);
      }
    }
  }

  lemma OtherWord(x: Word, v: Word)
    requires v != x
    ensures v / 16 != x / 16 || v % 16 != x % 16
  {
  }

  /** All other words leave memory alone: arithmetic, comparison, moves and jumps change registers and
      program counter as the instruction says, 63 calls the system, and the rest is the process's end. */
  lemma OtherCycle(m: Private, w: Word)
    requires PagesOk(m.pages) && Holds(m, m.pc, w) && !(512 * 15 <= w < 512 * 17)
    ensures match Execute(Decode(w), m.gprs, (m.pc + 1) % 65536)
            case Registers(gprs, pc) => PrivateCycle(m) == Continues(m.(gprs := gprs, pc := pc))
            case Trap => 512 * 63 <= w < 512 * 64 && PrivateCycle(m) == Traps(m.(pc := (m.pc + 1) % 65536))
            case BadInstruction => PrivateCycle(m) == Dies
            case Crash => PrivateCycle(m) == Divides
            case _ => false
  {
    hide Decode, Execute;
    Executed(m, w);
    var opcode, x, y, z := EveryWord(w);
    if w < 0x8000 {
      RegisterInstruction(opcode, x, y, z, m.gprs, (m.pc + 1) % 65536);
    } else {
      ImmediateInstruction(opcode, x, y, z, m.gprs, (m.pc + 1) % 65536);
    }
  }

  /** A program counter on a missing page asks for that page. */
  lemma FetchFault(m: Private)
    requires PagesOk(m.pages) && m.pc / 16 !in m.pages
    ensures PrivateCycle(m) == Faults(m.pc)
  {
  }
}
