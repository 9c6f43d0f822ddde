/** The GraphX instruction table and `encode_instruction`: a 5-bit opcode at
    bit 27 and one of seven operand templates, each operand masked to its
    field before it is shifted into place (helpers/asm.py). */
module Isa {
  import opened Wrappers
  import opened Bits
  import PyText

  const OPCODE_ARG_MASK: nat := 0x0000_001F
  const REGISTER_ARG_MASK: nat := 0x0000_0007
  const IMMEDIATE_ARG_MASK: nat := 0x07FF_FFFF
  const CONSTANT_ARG_MASK: nat := 0x00FF_FFFF
  const REG_CONSTANT_ARG_MASK: nat := 0x001F_FFFF

  const Opcodes: map<string, nat> := map[
    "HALT" := 0, "BZ" := 1, "BNZ" := 2, "JMP" := 3, "LDN" := 4, "ITER" := 5,
    "NEXT" := 6, "LDV" := 7, "HASN" := 8, "HASE" := 9, "ADD" := 10, "ADDI" := 11,
    "SUB" := 12, "SUBI" := 13, "CMP" := 14, "MOV" := 15, "MOVI" := 16, "CLR" := 17,
    "LD" := 18, "ST" := 19, "LDR" := 20, "STR" := 21, "PUSH" := 22, "POP" := 23,
    "FEMPTY" := 24, "FSWAP" := 25]

  /** The mnemonic lists `encode_instruction` tests, in its order. */
  const NoOperandOps: seq<string> := ["HALT", "ITER", "NEXT", "LDV", "HASN", "FEMPTY", "FSWAP"]
  const ImmediateOps: seq<string> := ["BZ", "BNZ", "JMP", "LDN", "HASE"]
  const RegRegRegOps: seq<string> := ["ADD", "SUB"]
  const RegRegConstOps: seq<string> := ["ADDI", "SUBI"]
  const RegRegOps: seq<string> := ["CMP", "MOV", "LDR", "STR"]
  const RegConstOps: seq<string> := ["MOVI", "LD", "ST"]
  const RegOps: seq<string> := ["CLR", "PUSH", "POP"]

  const Groups: seq<seq<string>> :=
    [NoOperandOps, ImmediateOps, RegRegRegOps, RegRegConstOps, RegRegOps, RegConstOps, RegOps]

  /** How many operands each group reads: `args[0..k-1]`. */
  const GroupArity: seq<nat> := [0, 1, 3, 3, 2, 2, 1]

  /** An operand after pass 2's substitution: a register index or a label
      address (a Python `int`), or the token as written (a Python `str`). */
  datatype Operand = Num(n: int) | Token(text: string)

  datatype EncodeError =
    | UnknownOpcode(op: string)               // KeyError at OPCODES[op]
    | MissingOperand(op: string, index: nat)  // IndexError at args[index]
    | MalformedInteger(token: string)         // ValueError from int(token)
    | InvalidOpcode(op: string)               // the final ValueError branch

  /** `int(args[i])`. */
  function OperandValue(op: string, args: seq<Operand>, i: nat): (r: Result<int, EncodeError>)
    ensures i >= |args| <==> r == Err(MissingOperand(op, i))
    ensures i < |args| && args[i].Num? ==> r == Ok(args[i].n)
    ensures r.Err? ==> r.error.MissingOperand? || r.error.MalformedInteger?
  {
    if i >= |args| then Err(MissingOperand(op, i))
    else
      match args[i]
      case Num(n) => Ok(n)
      case Token(t) =>
        match PyText.ParseIntBase10(t)
        case Some(n) => Ok(n)
        case None => Err(MalformedInteger(t))
  }

  /** The first `k` operands all convert with `int`. */
  predicate OperandsParse(op: string, args: seq<Operand>, k: nat) {
    forall i :: 0 <= i < k ==> OperandValue(op, args, i).Ok?
  }

  /** `e` is the error of the first of operands `0..k-1` that does not convert. */
  predicate FirstOperandError(op: string, args: seq<Operand>, k: nat, e: EncodeError) {
    exists i :: 0 <= i < k && OperandsParse(op, args, i) && OperandValue(op, args, i) == Err(e)
  }

  /** `int(args[0])`, ..., `int(args[k-1])`, evaluated left to right as the
      branches of `encode_instruction` do, stopping at the first failure. */
  function ReadOperands(op: string, args: seq<Operand>, k: nat): (r: Result<seq<int>, EncodeError>)
    ensures r.Ok? <==> OperandsParse(op, args, k)
    ensures r.Ok? ==> |r.value| == k && forall i :: 0 <= i < k ==> OperandValue(op, args, i) == Ok(r.value[i])
    ensures r.Err? ==> FirstOperandError(op, args, k, r.error)
  {
    if k == 0 then Ok([])
    else
      var front :- ReadOperands(op, args, k - 1);
      var last :- OperandValue(op, args, k - 1);
      Ok(front + [last])
  }

  /** `encode_instruction(op, args)`. */
  function EncodeInstruction(op: string, args: seq<Operand>): (r: Result<nat, EncodeError>)
    ensures op !in Opcodes ==> r == Err(UnknownOpcode(op))
  {
    if op !in Opcodes then Err(UnknownOpcode(op))
    else
      var opcode := Shl(Opcodes[op], 27);
      if op in NoOperandOps then
        Ok(opcode)
      else if op in ImmediateOps then
        var v :- ReadOperands(op, args, 1);
        Ok(BitOr(opcode, BitAnd(v[0], IMMEDIATE_ARG_MASK)))
      else if op in RegRegRegOps then
        var v :- ReadOperands(op, args, 3);
        Ok(BitOr(BitOr(BitOr(opcode, Shl(BitAnd(v[0], REGISTER_ARG_MASK), 24)),
                       Shl(BitAnd(v[1], REGISTER_ARG_MASK), 21)),
                 Shl(BitAnd(v[2], REGISTER_ARG_MASK), 18)))
      else if op in RegRegConstOps then
        var v :- ReadOperands(op, args, 3);
        Ok(BitOr(BitOr(BitOr(opcode, Shl(BitAnd(v[0], REGISTER_ARG_MASK), 24)),
                       Shl(BitAnd(v[1], REGISTER_ARG_MASK), 21)),
                 BitAnd(v[2], REG_CONSTANT_ARG_MASK)))
      else if op in RegRegOps then
        var v :- ReadOperands(op, args, 2);
        Ok(BitOr(BitOr(opcode, Shl(BitAnd(v[0], REGISTER_ARG_MASK), 24)),
                 Shl(BitAnd(v[1], REGISTER_ARG_MASK), 21)))
      else if op in RegConstOps then
        var v :- ReadOperands(op, args, 2);
        Ok(BitOr(BitOr(opcode, Shl(BitAnd(v[0], REGISTER_ARG_MASK), 24)),
                 BitAnd(v[1], CONSTANT_ARG_MASK)))
      else if op in RegOps then
        var v :- ReadOperands(op, args, 1);
        Ok(BitOr(opcode, Shl(BitAnd(v[0], REGISTER_ARG_MASK), 24)))
      else
        Err(InvalidOpcode(op))
  }

  // Each group's mnemonics are opcodes and belong to no later group.

  lemma NoOperandDisjoint()
    ensures forall op :: op in NoOperandOps ==> op in Opcodes && op !in ImmediateOps && op !in RegRegRegOps && op !in RegRegConstOps && op !in RegRegOps && op !in RegConstOps && op !in RegOps
  {
  }

  lemma ImmediateDisjoint()
    ensures forall op :: op in ImmediateOps ==> op in Opcodes && op !in RegRegRegOps && op !in RegRegConstOps && op !in RegRegOps && op !in RegConstOps && op !in RegOps
  {
  }

  lemma RegRegRegDisjoint()
    ensures forall op :: op in RegRegRegOps ==> op in Opcodes && op !in RegRegConstOps && op !in RegRegOps && op !in RegConstOps && op !in RegOps
  {
  }

  lemma RegRegConstDisjoint()
    ensures forall op :: op in RegRegConstOps ==> op in Opcodes && op !in RegRegOps && op !in RegConstOps && op !in RegOps
  {
  }

  lemma RegRegDisjoint()
    ensures forall op :: op in RegRegOps ==> op in Opcodes && op !in RegConstOps && op !in RegOps
  {
  }

  lemma RegConstDisjoint()
    ensures forall op :: op in RegConstOps ==> op in Opcodes && op !in RegOps
  {
  }

  lemma RegDisjoint()
    ensures forall op :: op in RegOps ==> op in Opcodes
  {
  }

  lemma OpcodesCovered()
    ensures forall op :: op in Opcodes ==> op in NoOperandOps || op in ImmediateOps || op in RegRegRegOps || op in RegRegConstOps || op in RegRegOps || op in RegConstOps || op in RegOps
  {
  }

  /** The index of the first group that lists `op`, as the `elif` chain of
      `encode_instruction` finds it; `|Groups|` when none does. */
  function GroupOf(op: string): (g: nat)
    ensures g <= |Groups|
  {
    if op in NoOperandOps then 0
    else if op in ImmediateOps then 1
    else if op in RegRegRegOps then 2
    else if op in RegRegConstOps then 3
    else if op in RegRegOps then 4
    else if op in RegConstOps then 5
    else if op in RegOps then 6
    else 7
  }

  /** A mnemonic is listed in some group exactly when it is an opcode, so
      the final `ValueError` branch is taken by no opcode. */
  lemma GroupsCoverOpcodes()
    ensures forall op :: op in Opcodes <==> GroupOf(op) < |Groups|
    ensures forall op :: GroupOf(op) < |Groups| ==> op in Groups[GroupOf(op)]
  {
    NoOperandDisjoint();
    ImmediateDisjoint();
    RegRegRegDisjoint();
    RegRegConstDisjoint();
    RegRegDisjoint();
    RegConstDisjoint();
    RegDisjoint();
    OpcodesCovered();
  }

  /** No mnemonic is listed in two groups. */
  lemma GroupsDisjoint()
    ensures forall g, op :: 0 <= g < |Groups| && op in Groups[g] ==> g == GroupOf(op)
  {
    NoOperandDisjoint();
    ImmediateDisjoint();
    RegRegRegDisjoint();
    RegRegConstDisjoint();
    RegRegDisjoint();
    RegConstDisjoint();
    RegDisjoint();
    forall g, op | 0 <= g < |Groups| && op in Groups[g]
      ensures g == GroupOf(op)
    {
      assert Groups[g] == [NoOperandOps, ImmediateOps, RegRegRegOps, RegRegConstOps, RegRegOps, RegConstOps, RegOps][g];
    }
  }

  /** Every opcode fits the 5-bit opcode field `OPCODE_ARG_MASK`. */
  lemma OpcodesFitField()
    ensures forall op :: op in Opcodes ==> Opcodes[op] <= OPCODE_ARG_MASK
  {
  }

  /** The number of operands `op` reads (0 for a non-opcode). */
  function Arity(op: string): (k: nat)
    ensures k <= 3
  {
    if GroupOf(op) < |Groups| then GroupArity[GroupOf(op)] else 0
  }

  // Each listed mnemonic is an opcode whose first group is its own.

  lemma MembersGroupNoOperand()
    ensures forall op :: op in NoOperandOps ==> op in Opcodes && GroupOf(op) == 0
  {
  }

  lemma MembersGroupImmediate()
    ensures forall op :: op in ImmediateOps ==> op in Opcodes && GroupOf(op) == 1
  {
  }

  lemma MembersGroupRegRegReg()
    ensures forall op :: op in RegRegRegOps ==> op in Opcodes && GroupOf(op) == 2
  {
  }

  lemma MembersGroupRegRegConst()
    ensures forall op :: op in RegRegConstOps ==> op in Opcodes && GroupOf(op) == 3
  {
  }

  lemma MembersGroupRegReg()
    ensures forall op :: op in RegRegOps ==> op in Opcodes && GroupOf(op) == 4
  {
  }

  lemma MembersGroupRegConst()
    ensures forall op :: op in RegConstOps ==> op in Opcodes && GroupOf(op) == 5
  {
  }

  lemma MembersGroupReg()
    ensures forall op :: op in RegOps ==> op in Opcodes && GroupOf(op) == 6
  {
  }

  /** `encode_instruction` succeeds exactly when `op` is an opcode and its
      operands convert; otherwise it fails with `KeyError` or with the error
      of the first operand that does not convert, never with the final
      `ValueError`. */
  lemma EncodeOutcome(op: string, args: seq<Operand>)
    ensures var r := EncodeInstruction(op, args);
      && (r.Ok? <==> op in Opcodes && OperandsParse(op, args, Arity(op)))
      && (op in Opcodes && r.Err? ==> FirstOperandError(op, args, Arity(op), r.error))
      && r != Err(InvalidOpcode(op))
  {
    OpcodesCovered();
    if op in NoOperandOps {
      OutcomeNoOperand(op, args);
    } else if op in ImmediateOps {
      OutcomeImmediate(op, args);
    } else if op in RegRegRegOps {
      OutcomeRegRegReg(op, args);
    } else if op in RegRegConstOps {
      OutcomeRegRegConst(op, args);
    } else if op in RegRegOps {
      OutcomeRegReg(op, args);
    } else if op in RegConstOps {
      OutcomeRegConst(op, args);
    } else if op in RegOps {
      OutcomeReg(op, args);
    }
  }

  lemma OutcomeNoOperand(op: string, args: seq<Operand>)
    requires op in NoOperandOps
    ensures var r := EncodeInstruction(op, args);
      && (r.Ok? <==> op in Opcodes && OperandsParse(op, args, Arity(op)))
      && (op in Opcodes && r.Err? ==> FirstOperandError(op, args, Arity(op), r.error))
      && r != Err(InvalidOpcode(op))
  {
    MembersGroupNoOperand();
    assert Arity(op) == 0;
  }

  lemma OutcomeImmediate(op: string, args: seq<Operand>)
    requires op in ImmediateOps
    ensures var r := EncodeInstruction(op, args);
      && (r.Ok? <==> op in Opcodes && OperandsParse(op, args, Arity(op)))
      && (op in Opcodes && r.Err? ==> FirstOperandError(op, args, Arity(op), r.error))
      && r != Err(InvalidOpcode(op))
  {
    MembersGroupImmediate();
    assert Arity(op) == 1;
  }

  lemma OutcomeRegRegReg(op: string, args: seq<Operand>)
    requires op in RegRegRegOps
    ensures var r := EncodeInstruction(op, args);
      && (r.Ok? <==> op in Opcodes && OperandsParse(op, args, Arity(op)))
      && (op in Opcodes && r.Err? ==> FirstOperandError(op, args, Arity(op), r.error))
      && r != Err(InvalidOpcode(op))
  {
    MembersGroupRegRegReg();
    assert Arity(op) == 3;
  }

  lemma OutcomeRegRegConst(op: string, args: seq<Operand>)
    requires op in RegRegConstOps
    ensures var r := EncodeInstruction(op, args);
      && (r.Ok? <==> op in Opcodes && OperandsParse(op, args, Arity(op)))
      && (op in Opcodes && r.Err? ==> FirstOperandError(op, args, Arity(op), r.error))
      && r != Err(InvalidOpcode(op))
  {
    MembersGroupRegRegConst();
    assert Arity(op) == 3;
  }

  lemma OutcomeRegReg(op: string, args: seq<Operand>)
    requires op in RegRegOps
    ensures var r := EncodeInstruction(op, args);
      && (r.Ok? <==> op in Opcodes && OperandsParse(op, args, Arity(op)))
      && (op in Opcodes && r.Err? ==> FirstOperandError(op, args, Arity(op), r.error))
      && r != Err(InvalidOpcode(op))
  {
    MembersGroupRegReg();
    assert Arity(op) == 2;
  }

  lemma OutcomeRegConst(op: string, args: seq<Operand>)
    requires op in RegConstOps
    ensures var r := EncodeInstruction(op, args);
      && (r.Ok? <==> op in Opcodes && OperandsParse(op, args, Arity(op)))
      && (op in Opcodes && r.Err? ==> FirstOperandError(op, args, Arity(op), r.error))
      && r != Err(InvalidOpcode(op))
  {
    MembersGroupRegConst();
    assert Arity(op) == 2;
  }

  lemma OutcomeReg(op: string, args: seq<Operand>)
    requires op in RegOps
    ensures var r := EncodeInstruction(op, args);
      && (r.Ok? <==> op in Opcodes && OperandsParse(op, args, Arity(op)))
      && (op in Opcodes && r.Err? ==> FirstOperandError(op, args, Arity(op), r.error))
      && r != Err(InvalidOpcode(op))
  {
    MembersGroupReg();
    assert Arity(op) == 1;
  }

  // Reading fields back: a word built from an opcode above bit 27, 3-bit
  // register fields at 24 and 21, and a low part.

  lemma Layout27(opc: nat, low: nat)
    requires low < 0x800_0000
    ensures (opc * 0x800_0000 + low) / 0x800_0000 == opc
    ensures (opc * 0x800_0000 + low) % 0x800_0000 == low
  {
    DivModUnique(opc, low, 0x800_0000);
  }

  lemma Layout24(opc: nat, a: nat, low: nat)
    requires a < 8 && low < 0x100_0000
    ensures var w := (opc * 8 + a) * 0x100_0000 + low;
      w / 0x800_0000 == opc && (w / 0x100_0000) % 8 == a && w % 0x100_0000 == low
  {
    var w := (opc * 8 + a) * 0x100_0000 + low;
    FieldReadBack(opc, a, low, 0x100_0000, 8);
    assert w == opc * 0x800_0000 + (a * 0x100_0000 + low);
    Layout27(opc, a * 0x100_0000 + low);
    DivModUnique(opc * 8 + a, low, 0x100_0000);
  }

  lemma Layout21(opc: nat, a: nat, b: nat, low: nat)
    requires a < 8 && b < 8 && low < 0x20_0000
    ensures var w := ((opc * 8 + a) * 8 + b) * 0x20_0000 + low;
      && w / 0x800_0000 == opc && (w / 0x100_0000) % 8 == a
      && (w / 0x20_0000) % 8 == b && w % 0x20_0000 == low
  {
    var w := ((opc * 8 + a) * 8 + b) * 0x20_0000 + low;
    assert w == (opc * 8 + a) * 0x100_0000 + (b * 0x20_0000 + low);
    Layout24(opc, a, b * 0x20_0000 + low);
    FieldReadBack(opc * 8 + a, b, low, 0x20_0000, 8);
    DivModUnique((opc * 8 + a) * 8 + b, low, 0x20_0000);
  }

  // The operand masks are low-bit masks: `x & MASK` is `x mod (MASK + 1)`.

  lemma MaskRegister(x: int)
    ensures BitAnd(x, REGISTER_ARG_MASK) == x % 8
  {
    Pow2Values();
    AndLowMask(x, 3);
  }

  lemma MaskRegConstant(x: int)
    ensures BitAnd(x, REG_CONSTANT_ARG_MASK) == x % 0x20_0000
  {
    Pow2Values();
    AndLowMask(x, 21);
  }

  lemma MaskConstant(x: int)
    ensures BitAnd(x, CONSTANT_ARG_MASK) == x % 0x100_0000
  {
    Pow2Values();
    AndLowMask(x, 24);
  }

  lemma MaskImmediate(x: int)
    ensures BitAnd(x, IMMEDIATE_ARG_MASK) == x % 0x800_0000
  {
    Pow2Values();
    AndLowMask(x, 27);
  }

  lemma ShiftValues(x: nat)
    ensures Shl(x, 27) == x * 0x800_0000 && Shl(x, 24) == x * 0x100_0000
    ensures Shl(x, 21) == x * 0x20_0000 && Shl(x, 18) == x * 0x4_0000
  {
    Pow2Values();
  }

  /** HALT, ITER, NEXT, LDV, HASN, FEMPTY and FSWAP encode to the bare
      opcode, whatever the operands. */
  lemma EncodeNoOperand(op: string, args: seq<Operand>)
    requires op in NoOperandOps
    ensures EncodeInstruction(op, args) == Ok(Opcodes[op] * 0x800_0000)
  {
    NoOperandDisjoint();
    Pow2Values();
  }

  /** BZ, BNZ, JMP, LDN, HASE: the low 27 bits hold `imm mod 2^27`. */
  lemma EncodeImmediate(op: string, args: seq<Operand>)
    requires op in ImmediateOps && EncodeInstruction(op, args).Ok?
    ensures var w := EncodeInstruction(op, args).value;
      && OperandValue(op, args, 0).Ok?
      && w < 0x1_0000_0000 && w / 0x800_0000 == Opcodes[op]
      && w % 0x800_0000 == OperandValue(op, args, 0).value % 0x800_0000
  {
    NoOperandDisjoint();
    OpcodesFitField();
    ImmediateWord(Opcodes[op], OperandValue(op, args, 0).value);
  }

  // The arithmetic of each operand layout, apart from the opcode table.

  lemma ImmediateWord(opc: nat, imm: int)
    requires opc <= OPCODE_ARG_MASK
    ensures var w := BitOr(Shl(opc, 27), BitAnd(imm, IMMEDIATE_ARG_MASK));
      && w < 0x1_0000_0000 && w / 0x800_0000 == opc && w % 0x800_0000 == imm % 0x800_0000
  {
    MaskImmediate(imm);
    ShiftValues(opc);
    Pow2Values();
    OrDisjoint(opc, imm % 0x800_0000, 27);
    Layout27(opc, imm % 0x800_0000);
  }

  /** Or-ing an opcode and two 3-bit fields above a 21-bit low part adds them. */
  lemma OrThreeFields(opc: nat, a: nat, b: nat, low: nat)
    requires a < 8 && b < 8 && low < 0x20_0000
    ensures BitOr(BitOr(BitOr(opc * 0x800_0000, a * 0x100_0000), b * 0x20_0000), low)
         == ((opc * 8 + a) * 8 + b) * 0x20_0000 + low
  {
    Pow2Values();
    OrDisjoint(opc, a * 0x100_0000, 27);
    assert opc * 0x800_0000 + a * 0x100_0000 == (opc * 8 + a) * 0x100_0000;
    OrDisjoint(opc * 8 + a, b * 0x20_0000, 24);
    assert (opc * 8 + a) * 0x100_0000 + b * 0x20_0000 == ((opc * 8 + a) * 8 + b) * 0x20_0000;
    OrDisjoint((opc * 8 + a) * 8 + b, low, 21);
  }

  lemma RegRegRegWord(opc: nat, r0: int, r1: int, r2: int)
    requires opc <= OPCODE_ARG_MASK
    ensures var w := BitOr(BitOr(BitOr(Shl(opc, 27), Shl(BitAnd(r0, REGISTER_ARG_MASK), 24)),
                                 Shl(BitAnd(r1, REGISTER_ARG_MASK), 21)),
                           Shl(BitAnd(r2, REGISTER_ARG_MASK), 18));
      && w < 0x1_0000_0000 && w / 0x800_0000 == opc
      && (w / 0x100_0000) % 8 == r0 % 8 && (w / 0x20_0000) % 8 == r1 % 8
      && (w / 0x4_0000) % 8 == r2 % 8 && w % 0x4_0000 == 0
  {
    MaskRegister(r0);
    MaskRegister(r1);
    MaskRegister(r2);
    var a, b, c := r0 % 8, r1 % 8, r2 % 8;
    ShiftValues(opc);
    ShiftValues(a);
    ShiftValues(b);
    ShiftValues(c);
    OrThreeFields(opc, a, b, c * 0x4_0000);
    Layout18(opc, a, b, c);
  }

  lemma Layout18(opc: nat, a: nat, b: nat, c: nat)
    requires a < 8 && b < 8 && c < 8
    ensures var w := ((opc * 8 + a) * 8 + b) * 0x20_0000 + c * 0x4_0000;
      && w / 0x800_0000 == opc && (w / 0x100_0000) % 8 == a
      && (w / 0x20_0000) % 8 == b && (w / 0x4_0000) % 8 == c && w % 0x4_0000 == 0
  {
    var x := (opc * 8 + a) * 8 + b;
    assert c * 0x4_0000 < 0x20_0000;
    Layout21(opc, a, b, c * 0x4_0000);
    assert x * 0x20_0000 + c * 0x4_0000 == (x * 8 + c) * 0x4_0000 + 0;
    FieldReadBack(x, c, 0, 0x4_0000, 8);
    DivModUnique(x * 8 + c, 0, 0x4_0000);
  }

  lemma RegRegConstWord(opc: nat, r0: int, r1: int, k: int)
    requires opc <= OPCODE_ARG_MASK
    ensures var w := BitOr(BitOr(BitOr(Shl(opc, 27), Shl(BitAnd(r0, REGISTER_ARG_MASK), 24)),
                                 Shl(BitAnd(r1, REGISTER_ARG_MASK), 21)),
                           BitAnd(k, REG_CONSTANT_ARG_MASK));
      && w < 0x1_0000_0000 && w / 0x800_0000 == opc
      && (w / 0x100_0000) % 8 == r0 % 8 && (w / 0x20_0000) % 8 == r1 % 8
      && w % 0x20_0000 == k % 0x20_0000
  {
    MaskRegister(r0);
    MaskRegister(r1);
    MaskRegConstant(k);
    var a, b, c := r0 % 8, r1 % 8, k % 0x20_0000;
    ShiftValues(opc);
    ShiftValues(a);
    ShiftValues(b);
    OrThreeFields(opc, a, b, c);
    Layout21(opc, a, b, c);
  }

  lemma RegRegWord(opc: nat, r0: int, r1: int)
    requires opc <= OPCODE_ARG_MASK
    ensures var w := BitOr(BitOr(Shl(opc, 27), Shl(BitAnd(r0, REGISTER_ARG_MASK), 24)),
                           Shl(BitAnd(r1, REGISTER_ARG_MASK), 21));
      && w < 0x1_0000_0000 && w / 0x800_0000 == opc
      && (w / 0x100_0000) % 8 == r0 % 8 && (w / 0x20_0000) % 8 == r1 % 8
      && w % 0x20_0000 == 0
  {
    MaskRegister(r0);
    MaskRegister(r1);
    var a, b := r0 % 8, r1 % 8;
    ShiftValues(opc);
    ShiftValues(a);
    ShiftValues(b);
    Pow2Values();
    var hi := BitOr(Shl(opc, 27), Shl(a, 24));
    OrDisjoint(opc, a * 0x100_0000, 27);
    assert hi == (opc * 8 + a) * 0x100_0000;
    OrDisjoint(opc * 8 + a, b * 0x20_0000, 24);
    assert BitOr(hi, Shl(b, 21)) == ((opc * 8 + a) * 8 + b) * 0x20_0000 + 0;
    Layout21(opc, a, b, 0);
  }

  lemma RegConstWord(opc: nat, r: int, k: int)
    requires opc <= OPCODE_ARG_MASK
    ensures var w := BitOr(BitOr(Shl(opc, 27), Shl(BitAnd(r, REGISTER_ARG_MASK), 24)),
                           BitAnd(k, CONSTANT_ARG_MASK));
      && w < 0x1_0000_0000 && w / 0x800_0000 == opc
      && (w / 0x100_0000) % 8 == r % 8 && w % 0x100_0000 == k % 0x100_0000
  {
    MaskRegister(r);
    MaskConstant(k);
    var a, c := r % 8, k % 0x100_0000;
    ShiftValues(opc);
    ShiftValues(a);
    Pow2Values();
    var hi := BitOr(Shl(opc, 27), Shl(a, 24));
    OrDisjoint(opc, a * 0x100_0000, 27);
    assert hi == (opc * 8 + a) * 0x100_0000;
    OrDisjoint(opc * 8 + a, c, 24);
    Layout24(opc, a, c);
  }

  lemma RegWord(opc: nat, r: int)
    requires opc <= OPCODE_ARG_MASK
    ensures var w := BitOr(Shl(opc, 27), Shl(BitAnd(r, REGISTER_ARG_MASK), 24));
      && w < 0x1_0000_0000 && w / 0x800_0000 == opc
      && (w / 0x100_0000) % 8 == r % 8 && w % 0x100_0000 == 0
  {
    MaskRegister(r);
    var a := r % 8;
    ShiftValues(opc);
    ShiftValues(a);
    Pow2Values();
    OrDisjoint(opc, a * 0x100_0000, 27);
    assert BitOr(Shl(opc, 27), Shl(a, 24)) == (opc * 8 + a) * 0x100_0000 + 0;
    Layout24(opc, a, 0);
  }

  /** ADD, SUB: three register fields at bits 24, 21 and 18, low 18 bits zero. */
  lemma EncodeRegRegReg(op: string, args: seq<Operand>)
    requires op in RegRegRegOps && EncodeInstruction(op, args).Ok?
    ensures var w := EncodeInstruction(op, args).value;
      && OperandValue(op, args, 0).Ok? && OperandValue(op, args, 1).Ok? && OperandValue(op, args, 2).Ok?
      && w < 0x1_0000_0000 && w / 0x800_0000 == Opcodes[op]
      && (w / 0x100_0000) % 8 == OperandValue(op, args, 0).value % 8
      && (w / 0x20_0000) % 8 == OperandValue(op, args, 1).value % 8
      && (w / 0x4_0000) % 8 == OperandValue(op, args, 2).value % 8
      && w % 0x4_0000 == 0
  {
    NoOperandDisjoint();
    ImmediateDisjoint();
    OpcodesFitField();
    RegRegRegWord(Opcodes[op], OperandValue(op, args, 0).value, OperandValue(op, args, 1).value, OperandValue(op, args, 2).value);
  }

  /** ADDI, SUBI: register fields at bits 24 and 21, low 21 bits `const mod 2^21`. */
  lemma EncodeRegRegConst(op: string, args: seq<Operand>)
    requires op in RegRegConstOps && EncodeInstruction(op, args).Ok?
    ensures var w := EncodeInstruction(op, args).value;
      && OperandValue(op, args, 0).Ok? && OperandValue(op, args, 1).Ok? && OperandValue(op, args, 2).Ok?
      && w < 0x1_0000_0000 && w / 0x800_0000 == Opcodes[op]
      && (w / 0x100_0000) % 8 == OperandValue(op, args, 0).value % 8
      && (w / 0x20_0000) % 8 == OperandValue(op, args, 1).value % 8
      && w % 0x20_0000 == OperandValue(op, args, 2).value % 0x20_0000
  {
    NoOperandDisjoint();
    ImmediateDisjoint();
    RegRegRegDisjoint();
    OpcodesFitField();
    RegRegConstWord(Opcodes[op], OperandValue(op, args, 0).value, OperandValue(op, args, 1).value, OperandValue(op, args, 2).value);
  }

  /** CMP, MOV, LDR, STR: register fields at bits 24 and 21, low 21 bits zero. */
  lemma EncodeRegReg(op: string, args: seq<Operand>)
    requires op in RegRegOps && EncodeInstruction(op, args).Ok?
    ensures var w := EncodeInstruction(op, args).value;
      && OperandValue(op, args, 0).Ok? && OperandValue(op, args, 1).Ok?
      && w < 0x1_0000_0000 && w / 0x800_0000 == Opcodes[op]
      && (w / 0x100_0000) % 8 == OperandValue(op, args, 0).value % 8
      && (w / 0x20_0000) % 8 == OperandValue(op, args, 1).value % 8
      && w % 0x20_0000 == 0
  {
    NoOperandDisjoint();
    ImmediateDisjoint();
    RegRegRegDisjoint();
    RegRegConstDisjoint();
    OpcodesFitField();
    RegRegWord(Opcodes[op], OperandValue(op, args, 0).value, OperandValue(op, args, 1).value);
  }

  /** MOVI, LD, ST: a register field at bit 24, low 24 bits `const mod 2^24`. */
  lemma EncodeRegConst(op: string, args: seq<Operand>)
    requires op in RegConstOps && EncodeInstruction(op, args).Ok?
    ensures var w := EncodeInstruction(op, args).value;
      && OperandValue(op, args, 0).Ok? && OperandValue(op, args, 1).Ok?
      && w < 0x1_0000_0000 && w / 0x800_0000 == Opcodes[op]
      && (w / 0x100_0000) % 8 == OperandValue(op, args, 0).value % 8
      && w % 0x100_0000 == OperandValue(op, args, 1).value % 0x100_0000
  {
    NoOperandDisjoint();
    ImmediateDisjoint();
    RegRegRegDisjoint();
    RegRegConstDisjoint();
    RegRegDisjoint();
    OpcodesFitField();
    RegConstWord(Opcodes[op], OperandValue(op, args, 0).value, OperandValue(op, args, 1).value);
  }

  /** CLR, PUSH, POP: a register field at bit 24, low 24 bits zero. */
  lemma EncodeReg(op: string, args: seq<Operand>)
    requires op in RegOps && EncodeInstruction(op, args).Ok?
    ensures var w := EncodeInstruction(op, args).value;
      && OperandValue(op, args, 0).Ok?
      && w < 0x1_0000_0000 && w / 0x800_0000 == Opcodes[op]
      && (w / 0x100_0000) % 8 == OperandValue(op, args, 0).value % 8
      && w % 0x100_0000 == 0
  {
    NoOperandDisjoint();
    ImmediateDisjoint();
    RegRegRegDisjoint();
    RegRegConstDisjoint();
    RegRegDisjoint();
    RegConstDisjoint();
    OpcodesFitField();
    RegWord(Opcodes[op], OperandValue(op, args, 0).value);
  }

  /** Every word `encode_instruction` returns fits 32 bits and carries the
      opcode in its top five bits. */
  lemma EncodedWordFits(op: string, args: seq<Operand>)
    requires EncodeInstruction(op, args).Ok?
    ensures EncodeInstruction(op, args).value < 0x1_0000_0000
    ensures EncodeInstruction(op, args).value / 0x800_0000 == Opcodes[op]
  {
    OpcodesCovered();
    if op in NoOperandOps {
      EncodeNoOperand(op, args);
      OpcodesFitField();
    } else if op in ImmediateOps {
      EncodeImmediate(op, args);
    } else if op in RegRegRegOps {
      EncodeRegRegReg(op, args);
    } else if op in RegRegConstOps {
      EncodeRegRegConst(op, args);
    } else if op in RegRegOps {
      EncodeRegReg(op, args);
    } else if op in RegConstOps {
      EncodeRegConst(op, args);
    } else {
      EncodeReg(op, args);
    }
  }
}
