/** The instruction set, word by word: what every 16-bit word does, in plain numbers. */
module InstructionSet {
  import opened Bits
  import opened Isa

  /** The fields of a register word, from the top: opcode, destination and two operands. */
  lemma RegisterFields(opcode: nat, dest: Reg, a: Reg, b: Reg)
    requires opcode < 64
    ensures var w := 512 * opcode + 64 * dest + 8 * a + b;
            && w < 0x8000 && GetBits(w, 15, 1) == 0 && GetBits(w, 9, 6) == opcode
            && RegField(w, 6) == dest && RegField(w, 3) == a && RegField(w, 0) == b
  {
    Powers();
    hide Pow2;
    var w := 512 * opcode + 64 * dest + 8 * a + b;
    FieldIs(w, 15, 1, 0x8000, 2, 0, 0, w);
    FieldIs(w, 9, 6, 512, 64, 0, opcode, 64 * dest + 8 * a + b);
    FieldIs(w, 6, 3, 64, 8, opcode, dest, 8 * a + b);
    FieldIs(w, 3, 3, 8, 8, 8 * opcode + dest, a, b);
    FieldIs(w, 0, 3, 1, 8, 64 * opcode + 8 * dest + a, b, 0);
  }

  /** The fields of an immediate word; bit 9 is not read. */
  lemma ImmediateFields(opcode: nat, reg: Reg, unread: nat, imed: nat)
    requires opcode < 4 && unread < 2 && imed < 512
    ensures var w := 0x8000 + 8192 * opcode + 1024 * reg + 512 * unread + imed;
            && w < 0x1_0000 && GetBits(w, 15, 1) == 1 && GetBits(w, 13, 2) == opcode
            && RegField(w, 10) == reg && GetBits(w, 0, 9) == imed
  {
    Powers();
    hide Pow2;
    var w := 0x8000 + 8192 * opcode + 1024 * reg + 512 * unread + imed;
    FieldIs(w, 15, 1, 0x8000, 2, 0, 1, 8192 * opcode + 1024 * reg + 512 * unread + imed);
    FieldIs(w, 13, 2, 8192, 4, 1, opcode, 1024 * reg + 512 * unread + imed);
    FieldIs(w, 10, 3, 1024, 8, 4 + opcode, reg, 512 * unread + imed);
    FieldIs(w, 0, 9, 1, 512, 64 + 16 * opcode + 2 * reg + unread, imed, 0);
  }

  lemma Powers()
    ensures Pow2(0) == 1 && Pow2(1) == 2 && Pow2(2) == 4 && Pow2(3) == 8 && Pow2(6) == 64 && Pow2(9) == 512
    ensures Pow2(10) == 1024 && Pow2(13) == 8192 && Pow2(15) == 0x8000
  {
  }

  lemma FieldIs(n: nat, pos: nat, length: nat, p: nat, l: nat, hi: nat, g: nat, lo: nat)
    requires p == Pow2(pos) && l == Pow2(length) && g < l && lo < p && n == (hi * l + g) * p + lo
    ensures GetBits(n, pos, length) == g
  {
    hide Pow2;
    DivMod(hi * l + g, p, lo);
    DivMod(hi, l, g);
  }

  /** A register word, executed: 0 adds, 1 subtracts and 2 multiplies modulo 65536, 3 divides, 4 and 5
      compare, 15 loads, 16 stores, 63 calls the system, and the other opcodes are illegal. */
  lemma RegisterInstruction(opcode: nat, dest: Reg, a: Reg, b: Reg, gprs: Regs, next: Word)
    requires opcode < 64
    ensures var w, x, y := 512 * opcode + 64 * dest + 8 * a + b, gprs[a], gprs[b];
            && w < 0x1_0000
            && var e := Execute(Decode(w), gprs, next);
               match opcode
               case 0 => e == Registers(gprs[dest := (x + y) % 65536], next)
               case 1 => e == Registers(gprs[dest := if y <= x then x - y else x - y + 65536], next)
               case 2 => e == Registers(gprs[dest := (x * y) % 65536], next)
               case 3 => if y == 0 then e == Crash
                         else exists q: Word :: q * y <= x < q * y + y && e == Registers(gprs[dest := q], next)
               case 4 => e == Registers(gprs[dest := if x == y then 1 else 0], next)
               case 5 => e == Registers(gprs[dest := if x == y then 0 else 1], next)
               case 15 => e == ReadWord(x, dest)
               case 16 => e == WriteWord(x, y)
               case 63 => e == Trap
               case _ => e == BadInstruction
  {
    hide GetBits;
    RegisterFields(opcode, dest, a, b);
    if opcode == 3 && gprs[b] != 0 {
      var q: Word := Quotient(gprs[a], gprs[b]);
      assert q * (gprs[b] as int) <= gprs[a] as int < q * (gprs[b] as int) + gprs[b] as int;
    }
  }

  /** An immediate word, executed: 0 jumps, 1 jumps if the register is 1, 3 moves the number into the
      register, and 2 is illegal. */
  lemma ImmediateInstruction(opcode: nat, reg: Reg, unread: nat, imed: nat, gprs: Regs, next: Word)
    requires opcode < 4 && unread < 2 && imed < 512
    ensures var w := 0x8000 + 8192 * opcode + 1024 * reg + 512 * unread + imed;
            && w < 0x1_0000
            && var e := Execute(Decode(w), gprs, next);
               match opcode
               case 0 => e == Registers(gprs, imed)
               case 1 => e == Registers(gprs, if gprs[reg] == 1 then imed else next)
               case 3 => e == Registers(gprs[reg := imed], next)
               case _ => e == BadInstruction
  {
    hide GetBits;
    ImmediateFields(opcode, reg, unread, imed);
  }

  /** These are all the words there are: below 0x8000 register words, from there on immediate ones. */
  lemma EveryWord(w: Word) returns (opcode: nat, x: Reg, y: nat, z: nat)
    ensures w < 0x8000 ==> opcode < 64 && y < 8 && z < 8 && w == 512 * opcode + 64 * x + 8 * y + z
    ensures w >= 0x8000 ==> opcode < 4 && y < 2 && z < 512 && w == 0x8000 + 8192 * opcode + 1024 * x + 512 * y + z
  {
    if w < 0x8000 {
      var upper := w / 8;
      var top := upper / 8;
      opcode, x, y, z := top / 8, top % 8, upper % 8, w % 8;
    } else {
      var upper := (w - 0x8000) / 512;
      var top := upper / 2;
      opcode, x, y, z := top / 8, top % 8, upper % 2, (w - 0x8000) % 512;
    }
  }
}
