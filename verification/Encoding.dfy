/** How the assembler lays out an instruction word: fields shifted into place and combined by
    bitwise or. The processor's decoder is the partner; see module Isa. */
module Encoding {
  import opened Bits
  import opened Isa

  /** Bitwise or. */
  function Or(a: nat, b: nat): nat {
    if a == 0 then b
    else if b == 0 then a
    else 2 * Or(a / 2, b / 2) + (if a % 2 == 1 || b % 2 == 1 then 1 else 0)
  }

  lemma OrHalf(a: nat, b: nat)
    ensures Or(a, b) / 2 == Or(a / 2, b / 2)
    ensures Or(a, b) % 2 == if a % 2 == 1 || b % 2 == 1 then 1 else 0
  {
  }

  function High(v: nat, p: nat): nat {
    Division(v, Pow2(p));
    v / Pow2(p)
  }

  lemma HighHalf(v: nat, p: nat)
    requires p > 0
    ensures High(v, p) == High(v / 2, p - 1)
  {
    assert Pow2(p) == 2 * Pow2(p - 1);
    hide Pow2;
    DivDiv(v, 2, Pow2(p - 1));
  }

  lemma {:induction false} OrDiv(a: nat, b: nat, p: nat)
    ensures High(Or(a, b), p) == Or(High(a, p), High(b, p))
    decreases p
  {
    hide Or;
    if p == 0 {
      assert High(a, 0) == a && High(b, 0) == b && High(Or(a, b), 0) == Or(a, b);
    } else {
      hide High;
      OrHalf(a, b);
      OrDiv(a / 2, b / 2, p - 1);
      HighHalf(Or(a, b), p);
      HighHalf(a, p);
      HighHalf(b, p);
    }
  }

  lemma ModHalf(v: nat, q: nat)
    requires q > 0
    ensures v % (2 * q) == 2 * (v / 2 % q) + v % 2 && v % (2 * q) / 2 == v / 2 % q && v % (2 * q) % 2 == v % 2
  {
    ModMod(v, 2, q);
    Division(v % (2 * q), 2);
  }

  lemma {:induction false} OrMod(a: nat, b: nat, l: nat)
    ensures Or(a, b) % Pow2(l) == Or(a % Pow2(l), b % Pow2(l))
    decreases l
  {
    if l > 0 {
      hide Or;
      OrHalf(a, b);
      OrMod(a / 2, b / 2, l - 1);
      ModHalf(Or(a, b), Pow2(l - 1));
      ModHalf(a, Pow2(l - 1));
      ModHalf(b, Pow2(l - 1));
      OrHalf(a % Pow2(l), b % Pow2(l));
      Division(Or(a % Pow2(l), b % Pow2(l)), 2);
    }
  }

  /** A field of a bitwise or is the or of the fields. */
  lemma GetOr(a: nat, b: nat, pos: nat, length: nat)
    ensures GetBits(Or(a, b), pos, length) == Or(GetBits(a, pos, length), GetBits(b, pos, length))
  {
    hide Or, Pow2;
    OrDiv(a, b, pos);
    OrMod(a / Pow2(pos), b / Pow2(pos), length);
  }

  lemma OrInRange(a: Word, b: Word)
    ensures Or(a, b) < 0x1_0000
  {
    OrDiv(a, b, 16);
    PowerTable();
    hide Pow2, Or;
    OrZeros();
    Division(Or(a, b), 0x1_0000);
  }

  function OrWord(a: Word, b: Word): Word {
    OrInRange(a, b);
    Or(a, b)
  }

  // ---------- the two layouts ----------

  type Opcode6 = x: nat | x < 64

  type Opcode2 = x: nat | x < 4

  /** opcode | dest | op1 | op2, six and three times three bits. */
  function EncodeR(opcode: Opcode6, dest: Reg, op1: Reg, op2: Reg): Word {
    opcode * 512 + dest * 64 + op1 * 8 + op2
  }

  method EncodeRtypeInstruction(opcode: Opcode6, dest: Reg, op1: Reg, op2: Reg) returns (instr: Word)
    ensures instr == EncodeR(opcode, dest, op1, op2)
  {
    PowerTable();
    hide Or, Pow2;
    OrZeros();
    instr := 0;
    instr := OrWord(instr, op2);
    OrAdds(op2, op1, 3, 8);
    instr := OrWord(instr, op1 * 8);
    OrAdds(op1 * 8 + op2, dest, 6, 64);
    instr := OrWord(instr, dest * 64);
    OrAdds(dest * 64 + op1 * 8 + op2, opcode, 9, 512);
    instr := OrWord(instr, opcode * 512);
  }

  lemma PowerTable()
    ensures Pow2(0) == 1 && Pow2(1) == 2 && Pow2(2) == 4 && Pow2(3) == 8 && Pow2(6) == 64 && Pow2(9) == 512
    ensures Pow2(10) == 1024 && Pow2(13) == 8192 && Pow2(15) == 32768 && Pow2(16) == 0x1_0000
  {
  }

  /** Or with a number shifted past all bits of the other one adds the two. */
  lemma OrAdds(x: nat, y: nat, k: nat, p: nat)
    requires p == Pow2(k) && x < p
    ensures y * p >= 0 && Or(x, y * p) == y * p + x
  {
    hide Or, Pow2;
    OrZeros();
    assert y * p >= 0;
    OrDiv(x, y * p, k);
    OrMod(x, y * p, k);
    DivMod(y, p, 0);
    DivMod(0, p, x);
    Division(Or(x, y * p), p);
  }

  /** Type bit, opcode, register and immediate combined; an immediate of more than ten bits runs
      into the other fields. */
  function EncodeI(opcode: Opcode2, reg: Reg, imed: Word): Word {
    OrWord(OrWord(OrWord(32768, imed), reg * 1024), opcode * 8192)
  }

  method EncodeItypeInstruction(opcode: Opcode2, reg: Reg, imed: Word) returns (instr: Word)
    ensures instr == EncodeI(opcode, reg, imed)
  {
    hide Or;
    instr := 32768;
    instr := OrWord(instr, imed);
    instr := OrWord(instr, reg * 1024);
    instr := OrWord(instr, opcode * 8192);
  }

  /** Each field of an I-type word, as the or of what was shifted into it. */
  lemma FieldOfI(opcode: Opcode2, reg: Reg, imed: Word, pos: nat, length: nat)
    ensures GetBits(EncodeI(opcode, reg, imed), pos, length) ==
            Or(Or(Or(GetBits(32768, pos, length), GetBits(imed, pos, length)), GetBits(reg * 1024, pos, length)),
               GetBits(opcode * 8192, pos, length))
  {
    hide Or, GetBits;
    GetOr(32768, imed, pos, length);
    GetOr(Or(32768, imed), reg * 1024, pos, length);
    GetOr(Or(Or(32768, imed), reg * 1024), opcode * 8192, pos, length);
  }

  lemma Shifted(x: nat)
    requires x < 8
    ensures GetBits(32768, 15, 1) == 1 && GetBits(32768, 13, 2) == 0 && GetBits(32768, 10, 3) == 0
            && GetBits(32768, 0, 9) == 0
    ensures GetBits(x * 1024, 15, 1) == 0 && GetBits(x * 1024, 13, 2) == 0 && GetBits(x * 1024, 10, 3) == x
            && GetBits(x * 1024, 0, 9) == 0
    ensures x < 4 ==>
              && GetBits(x * 8192, 15, 1) == 0 && GetBits(x * 8192, 13, 2) == x
              && GetBits(x * 8192, 10, 3) == 0 && GetBits(x * 8192, 0, 9) == 0
  {
    PowerTable();
    hide Pow2;
  }

  lemma ImmediateFields(imed: Word)
    ensures GetBits(imed, 15, 1) < 2 && GetBits(imed, 13, 2) == imed / 8192 % 4
            && GetBits(imed, 10, 3) == imed / 1024 % 8
    ensures GetBits(imed, 0, 9) == imed % 512
  {
    PowerTable();
    hide Pow2;
  }

  /** What the processor reads in an I-type word, for every immediate: its low nine bits, and
      opcode and register spoilt by whatever stands in bits 10 to 14. */
  lemma DecodeEncodeI(opcode: Opcode2, reg: Reg, imed: Word)
    ensures var w := EncodeI(opcode, reg, imed);
            && GetBits(w, 15, 1) == 1 && GetBits(w, 0, 9) == imed % 512
            && GetBits(w, 13, 2) == Or(imed / 8192 % 4, opcode) && GetBits(w, 10, 3) == Or(imed / 1024 % 8, reg)
  {
    OrZeros();
    hide EncodeI, Or, GetBits;
    Shifted(reg);
    Shifted(opcode);
    ImmediateFields(imed);
    FieldOfI(opcode, reg, imed, 15, 1);
    FieldOfI(opcode, reg, imed, 0, 9);
    FieldOfI(opcode, reg, imed, 13, 2);
    FieldOfI(opcode, reg, imed, 10, 3);
  }

  /** An immediate that fits the assembler's ten bits leaves opcode and register alone. */
  lemma DecodeFitting(opcode: Opcode2, reg: Reg, imed: Word)
    requires imed < 1024
    ensures Decode(EncodeI(opcode, reg, imed)) == DecodeI(opcode, reg, imed % 512)
  {
    OrZeros();
    hide EncodeI, Or, GetBits, DecodeI;
    DecodeEncodeI(opcode, reg, imed);
    assert imed / 8192 % 4 == 0 && imed / 1024 % 8 == 0;
  }

  lemma OrZeros()
    ensures forall x: nat :: Or(0, x) == x && Or(x, 0) == x
    ensures Or(1, 1) == 1 && Or(0, 1) == 1
  {
  }

  /** The processor reads back what the assembler wrote exactly when the immediate is below 512:
      the assembler lays out ten bits, the processor reads nine. */
  lemma ImmediateExactly(opcode: Opcode2, reg: Reg, imed: Word)
    ensures var w := EncodeI(opcode, reg, imed);
            GetBits(w, 15, 1) == 1 && GetBits(w, 13, 2) == opcode && GetBits(w, 10, 3) == reg
              && GetBits(w, 0, 9) == imed
            <==> imed < 512
  {
    OrZeros();
    hide EncodeI, GetBits, Or;
    DecodeEncodeI(opcode, reg, imed);
    assert imed < 512 ==> imed / 8192 % 4 == 0 && imed / 1024 % 8 == 0;
  }

  /** `mov r0, 1024` passes the assembler's range check and runs as `mov r1, 0`; `mov r0, 512` runs
      as `mov r0, 0`. */
  lemma ImmediateLost()
    ensures Decode(EncodeI(3, 0, 1024)) == Mov(1, 0)
    ensures Decode(EncodeI(3, 0, 512)) == Mov(0, 0)
  {
    OrZeros();
    hide EncodeI, Or, GetBits;
    DecodeEncodeI(3, 0, 1024);
    DecodeFitting(3, 0, 512);
  }

  /** Every R-type word decodes to its own fields. */
  lemma DecodeEncodeR(opcode: Opcode6, dest: Reg, op1: Reg, op2: Reg)
    ensures Decode(EncodeR(opcode, dest, op1, op2)) == DecodeR(opcode, dest, op1, op2)
  {
    hide DecodeR, GetBits;
    FieldsOfR(opcode, dest, op1, op2);
  }

  lemma FieldsOfR(opcode: Opcode6, dest: Reg, op1: Reg, op2: Reg)
    ensures var w := EncodeR(opcode, dest, op1, op2);
            && GetBits(w, 15, 1) == 0 && GetBits(w, 9, 6) == opcode && GetBits(w, 6, 3) == dest
            && GetBits(w, 3, 3) == op1 && GetBits(w, 0, 3) == op2
  {
    PowerTable();
    hide Pow2, GetBits;
    var w := EncodeR(opcode, dest, op1, op2);
    FieldAt(w, 0, 0, w, 15, 1, 32768, 2);
    FieldAt(w, 0, opcode, dest * 64 + op1 * 8 + op2, 9, 6, 512, 64);
    FieldAt(w, opcode, dest, op1 * 8 + op2, 6, 3, 64, 8);
    FieldAt(w, opcode * 8 + dest, op1, op2, 3, 3, 8, 8);
    FieldAt(w, opcode * 64 + dest * 8 + op1, op2, 0, 0, 3, 1, 8);
  }

  /** The field x with `above` before it and `below` after it; p and l are the powers of two. */
  lemma FieldAt(w: nat, above: nat, x: nat, below: nat, pos: nat, length: nat, p: nat, l: nat)
    requires p == Pow2(pos) && l == Pow2(length) && x < l && below < p && w == (above * l + x) * p + below
    ensures GetBits(w, pos, length) == x
  {
    hide Pow2;
    DivMod(above * l + x, p, below);
    DivMod(above, l, x);
  }
}
