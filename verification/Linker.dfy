/** The two-pass linker: addresses for all nodes, labels resolved, words emitted. */
module Linker {
  import opened Isa
  import opened Encoding
  import Lexer

  datatype OpR =
    | ADD | SUB | MUL | DIV | CMP_EQUAL | CMP_NEQ | CMP_LESS | CMP_GREATER | CMP_LESS_EQ | CMP_GREATER_EQ
    | AND | OR | XOR | SHL | SHR | LOAD | STORE | SYSCALL

  datatype OpI = JUMP | JUMP_COND | MOV

  function OpcodeR(op: OpR): Opcode6 {
    match op
    case ADD => 0 case SUB => 1 case MUL => 2 case DIV => 3
    case CMP_EQUAL => 4 case CMP_NEQ => 5 case CMP_LESS => 6 case CMP_GREATER => 7
    case CMP_LESS_EQ => 8 case CMP_GREATER_EQ => 9
    case AND => 10 case OR => 11 case XOR => 12 case SHL => 13 case SHR => 14
    case LOAD => 15 case STORE => 16 case SYSCALL => 63
  }

  function OpcodeI(op: OpI): Opcode2 {
    match op
    case JUMP => 0
    case JUMP_COND => 1
    case MOV => 3
  }

  datatype Operand = Number(value: Word) | Name(name: Lexer.Text)

  /** One node of the syntax tree. The parser leaves the register of a jump unset: any value. */
  datatype Item =
    | Data(words: seq<Word>)
    | Label(name: Lexer.Text)
    | InstrR(opr: OpR, dest: Reg, op1: Reg, op2: Reg)
    | InstrI(opi: OpI, reg: Reg, operand: Operand)

  // ---------- what the linker computes ----------

  function Size(item: Item): nat {
    match item
    case Data(words) => |words|
    case Label(_) => 0
    case _ => 1
  }

  /** The address of node i: word 0 and the jump at word 1 come first. */
  function AddressOf(items: seq<Item>, i: nat): nat
    requires i <= |items|
  {
    if i == 0 then 2 else AddressOf(items, i - 1) + Size(items[i - 1])
  }

  /** The first node that defines the label, or |items|. */
  function FirstLabel(items: seq<Item>, name: Lexer.Text): (i: nat)
    ensures i <= |items| && (i < |items| ==> items[i] == Label(name))
    ensures forall j :: 0 <= j < i ==> items[j] != Label(name)
  {
    if items == [] || items[0] == Label(name) then 0 else 1 + FirstLabel(items[1..], name)
  }

  predicate Defined(items: seq<Item>, name: Lexer.Text) {
    FirstLabel(items, name) < |items|
  }

  function LabelAddress(items: seq<Item>, name: Lexer.Text): Word {
    Wrap(AddressOf(items, FirstLabel(items, name)))
  }

  function Resolve(items: seq<Item>, operand: Operand): Word {
    match operand
    case Number(value) => value
    case Name(name) => LabelAddress(items, name)
  }

  /** The node refers to a label that no node defines. */
  predicate Dangling(items: seq<Item>, item: Item) {
    item.InstrI? && item.operand.Name? && !Defined(items, item.operand.name)
  }

  /** The words of one node. */
  function Code(items: seq<Item>, item: Item): (ws: seq<Word>)
    ensures |ws| == Size(item)
  {
    match item
    case Data(words) => words
    case Label(_) => []
    case InstrR(op, dest, op1, op2) => [EncodeR(OpcodeR(op), dest, op1, op2)]
    case InstrI(op, reg, operand) => [EncodeI(OpcodeI(op), reg, Resolve(items, operand))]
  }

  /** The words of the first n nodes. */
  function Emitted(items: seq<Item>, n: nat): seq<Word>
    requires n <= |items|
  {
    if n == 0 then [] else Emitted(items, n - 1) + Code(items, items[n - 1])
  }

  const START: Lexer.Text := "_start"

  datatype LinkResult = Binary(image: seq<Word>) | MissingLabel(name: Lexer.Text) | MissingStart

  /** The first node whose label is not defined, or |items|. */
  function FirstDangling(items: seq<Item>, i: nat): (r: nat)
    requires i <= |items|
    ensures i <= r <= |items|
    ensures r < |items| ==> Dangling(items, items[r])
    ensures forall j :: i <= j < r ==> !Dangling(items, items[j])
    decreases |items| - i
  {
    if i == |items| || Dangling(items, items[i]) then i else FirstDangling(items, i + 1)
  }

  function Image(items: seq<Item>): seq<Word> {
    [0, EncodeI(OpcodeI(JUMP), 0, LabelAddress(items, START))] + Emitted(items, |items|)
  }

  function Link(items: seq<Item>): LinkResult {
    var bad := FirstDangling(items, 0);
    if bad < |items| then MissingLabel(items[bad].operand.name)
    else if !Defined(items, START) then MissingStart
    else Binary(Image(items))
  }

  // ---------- addresses are positions in the output ----------

  lemma {:induction false} EmittedLength(items: seq<Item>, n: nat)
    requires n <= |items|
    ensures 2 + |Emitted(items, n)| == AddressOf(items, n)
  {
    if n > 0 {
      EmittedLength(items, n - 1);
    }
  }

  lemma {:induction false} EmittedPrefix(items: seq<Item>, i: nat, n: nat)
    requires i <= n <= |items|
    ensures Emitted(items, i) <= Emitted(items, n)
    decreases n
  {
    if i < n {
      EmittedPrefix(items, i, n - 1);
      assert Emitted(items, n - 1) <= Emitted(items, n);
    }
  }

  lemma {:induction false} AddressGrows(items: seq<Item>, i: nat, j: nat)
    requires i <= j <= |items|
    ensures 2 <= AddressOf(items, i) <= AddressOf(items, j)
    ensures i < j ==> AddressOf(items, i) + Size(items[i]) <= AddressOf(items, j)
    decreases j
  {
    if i < j {
      AddressGrows(items, i, j - 1);
    } else if i > 0 {
      AddressGrows(items, i - 1, i - 1);
    }
  }

  /** The address of every node is the position in the image of the words it stands before: for a
      label, those of whatever follows it. */
  lemma AddressIsPosition(items: seq<Item>, i: nat)
    requires i < |items|
    ensures var a := AddressOf(items, i);
            && |Image(items)| == AddressOf(items, |items|)
            && a + Size(items[i]) == AddressOf(items, i + 1) <= |Image(items)|
            && Image(items)[a..a + Size(items[i])] == Code(items, items[i])
  {
    hide Code;
    EmittedLength(items, |items|);
    EmittedLength(items, i);
    EmittedPrefix(items, i + 1, |items|);
    var before, code, whole := Emitted(items, i), Code(items, items[i]), Emitted(items, |items|);
    var head, rest := Image(items)[..2], whole[|before| + |code|..];
    assert whole == before + code + rest;
    assert Image(items) == head + whole;
    Middle(head, before, code, rest, Image(items));
  }

  lemma Middle(head: seq<Word>, before: seq<Word>, code: seq<Word>, rest: seq<Word>, all: seq<Word>)
    requires all == head + (before + code + rest)
    ensures var a := |head| + |before|; a + |code| <= |all| && all[a..a + |code|] == code
  {
  }

  // ---------- the linker in place ----------

  /** A node with the three fields that the linker writes. */
  class Node {
    const item: Item
    var words: Word
    var vaddr: Word
    var imed: Word

    constructor (item: Item)
      ensures this.item == item && Parsed()
    {
      this.item := item;
      words, vaddr := 0, 0;
      imed := if item.InstrI? && item.operand.Number? then item.operand.value else 0;
    }

    /** The parser has stored a numeric operand. */
    ghost predicate Parsed()
      reads this
    {
      item.InstrI? && item.operand.Number? ==> imed == item.operand.value
    }
  }

  ghost function Items(tree: seq<Node>): (items: seq<Item>)
    ensures |items| == |tree| && forall i :: 0 <= i < |tree| ==> items[i] == tree[i].item
  {
    seq(|tree|, i requires 0 <= i < |tree| => tree[i].item)
  }

  ghost predicate Separate(tree: seq<Node>) {
    forall i, j :: 0 <= i < j < |tree| ==> tree[i] != tree[j]
  }

  ghost predicate AddressesSet(tree: seq<Node>)
    reads tree
  {
    forall i :: 0 <= i < |tree| ==> tree[i].vaddr == Wrap(AddressOf(Items(tree), i))
  }

  lemma AddressStep(items: seq<Item>, i: nat)
    requires i <= |items|
    ensures AddressOf(items, 0) == 2 && Wrap(2) == 2 && Wrap(0) == 0 && Wrap(1) == 1
    ensures i < |items| ==> Wrap(AddressOf(items, i + 1)) == Wrap(Wrap(AddressOf(items, i)) + Wrap(Size(items[i])))
  {
  }

  method CalculateVaddrs(tree: seq<Node>)
    requires Separate(tree)
    modifies tree
    ensures AddressesSet(tree)
    ensures forall i :: 0 <= i < |tree| ==>
              tree[i].words == Wrap(Size(tree[i].item)) && tree[i].imed == old(tree[i].imed)
  {
    hide Wrap, AddressOf;
    AddressStep(Items(tree), 0);
    var next: Word := 2;
    for i := 0 to |tree|
      invariant next == Wrap(AddressOf(Items(tree), i))
      invariant forall j :: 0 <= j < i ==>
                  tree[j].vaddr == Wrap(AddressOf(Items(tree), j)) && tree[j].words == Wrap(Size(tree[j].item))
      invariant forall j :: 0 <= j < |tree| ==> tree[j].imed == old(tree[j].imed)
    {
      AddressStep(Items(tree), i);
      var node := tree[i];
      node.vaddr := next;
      match node.item {
        case Data(words) => node.words := Wrap(|words|);
        case Label(_) => node.words := 0;
        case _ => node.words := 1;
      }
      next := Wrap(next + node.words);
    }
  }

  method SearchLabelNode(tree: seq<Node>, name: Lexer.Text) returns (i: nat)
    ensures i == FirstLabel(Items(tree), name)
  {
    ghost var items := Items(tree);
    assert items[0..] == items;
    i := 0;
    while i < |tree| && tree[i].item != Label(name)
      invariant i <= |tree|
      invariant FirstLabel(items, name) == i + FirstLabel(items[i..], name)
    {
      assert items[i..][1..] == items[i + 1..];
      i := i + 1;
    }
  }

  /** Every label operand replaced by the address of its node; stops at the first undefined one. */
  method FillPlaceHolders(tree: seq<Node>) returns (bad: nat)
    requires Separate(tree) && AddressesSet(tree) && forall i :: 0 <= i < |tree| ==> tree[i].Parsed()
    modifies tree
    ensures bad == FirstDangling(Items(tree), 0)
    ensures AddressesSet(tree)
    ensures bad == |tree| ==> forall i :: 0 <= i < |tree| && tree[i].item.InstrI? ==>
                                tree[i].imed == Resolve(Items(tree), tree[i].item.operand)
  {
    hide Wrap, AddressOf, FirstLabel;
    ghost var items := Items(tree);
    for i := 0 to |tree|
      invariant AddressesSet(tree)
      invariant FirstDangling(items, 0) == FirstDangling(items, i)
      invariant forall j :: 0 <= j < i && items[j].InstrI? ==> tree[j].imed == Resolve(items, items[j].operand)
      invariant forall j :: i <= j < |tree| ==> tree[j].Parsed()
    {
      var node := tree[i];
      if node.item.InstrI? && node.item.operand.Name? {
        var target := SearchLabelNode(tree, node.item.operand.name);
        if target == |tree| {
          return i;
        }
        node.imed := tree[target].vaddr;
      }
    }
    return |tree|;
  }

  /** The words that go to the output file, or the linker's error. */
  method GenerateBinary(tree: seq<Node>) returns (r: LinkResult)
    requires Separate(tree) && forall i :: 0 <= i < |tree| ==> tree[i].Parsed()
    modifies tree
    ensures r == Link(Items(tree))
  {
    hide Wrap, AddressOf, FirstLabel, FirstDangling, EncodeR, EncodeI, OpcodeR, OpcodeI, Code;
    ghost var items := Items(tree);
    CalculateVaddrs(tree);
    var bad := FillPlaceHolders(tree);
    if bad < |tree| {
      return MissingLabel(tree[bad].item.operand.name);
    }
    var out: seq<Word> := [0];
    var start := SearchLabelNode(tree, START);
    if start == |tree| {
      return MissingStart;
    }
    var jump := EncodeItypeInstruction(OpcodeI(JUMP), 0, tree[start].vaddr);
    out := out + [jump];
    ghost var head := out;
    for i := 0 to |tree|
      invariant out == head + Emitted(items, i)
      modifies {}
    {
      out := WriteNode(items, tree[i], out);
      assert Emitted(items, i + 1) == Emitted(items, i) + Code(items, items[i]);
      assert head + Emitted(items, i) + Code(items, items[i]) == head + (Emitted(items, i) + Code(items, items[i]));
    }
    assert out == Image(items);
    return Binary(out);
  }

  /** The words of one node appended to the output. */
  method WriteNode(ghost items: seq<Item>, node: Node, before: seq<Word>) returns (out: seq<Word>)
    requires node.item.InstrI? ==> node.imed == Resolve(items, node.item.operand)
    ensures out == before + Code(items, node.item)
  {
    hide EncodeR, EncodeI, OpcodeR, OpcodeI, Resolve;
    out := before;
    match node.item {
      case Data(words) =>
        for k := 0 to |words|
          invariant out == before + words[..k]
        {
          out := out + [words[k]];
        }
        assert words[..|words|] == words;
      case Label(_) =>
      case InstrR(op, dest, op1, op2) =>
        var w := EncodeRtypeInstruction(OpcodeR(op), dest, op1, op2);
        out := out + [w];
      case InstrI(op, reg, _) =>
        var w := EncodeItypeInstruction(OpcodeI(op), reg, node.imed);
        out := out + [w];
    }
  }
}
