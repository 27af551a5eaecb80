/**
 * The instruction set of the virtual machine: the OPCODE and SYSCODE
 * enumerations, their numeric codes, and the assembler's descriptor table
 * (mnemonic and number of parameters of each opcode).
 */
module Opcodes {
  import opened Words

  datatype Opcode =
    | NOOP | SYS | PUSH | POP
    | LOAD | STORE
    | LOCAL | CALL
    | GOTO | IFT | IFF
    | IEQ | INE | ILT | ILE | IGT | IGE
    | I2F | F2I
    | IAND | IOR
    | IADD | ISUB | IMUL | IDIV
    | IMOD
    | FADD | FSUB | FMUL | FDIV
    | FCMP

  const OpCount: nat := 31

  /** A row of the opcode table, which is also an opcode's numeric value. */
  type OpIndex = k: nat | k < OpCount

  /** The numeric value of an opcode in the bytecode stream. */
  function Code(op: Opcode): (w: Word)
    ensures w < OpCount
  {
    match op
    case NOOP => 0  case SYS => 1  case PUSH => 2  case POP => 3
    case LOAD => 4  case STORE => 5
    case LOCAL => 6  case CALL => 7
    case GOTO => 8  case IFT => 9  case IFF => 10
    case IEQ => 11  case INE => 12  case ILT => 13  case ILE => 14  case IGT => 15  case IGE => 16
    case I2F => 17  case F2I => 18
    case IAND => 19  case IOR => 20
    case IADD => 21  case ISUB => 22  case IMUL => 23  case IDIV => 24
    case IMOD => 25
    case FADD => 26  case FSUB => 27  case FMUL => 28  case FDIV => 29
    case FCMP => 30
  }

  /** The opcode a word stands for, if any. */
  function Decode(w: Word): (r: Option<Opcode>)
    ensures r.Some? <==> w < OpCount
  {
    match w
    case 0 => Some(NOOP)  case 1 => Some(SYS)  case 2 => Some(PUSH)  case 3 => Some(POP)
    case 4 => Some(LOAD)  case 5 => Some(STORE)
    case 6 => Some(LOCAL)  case 7 => Some(CALL)
    case 8 => Some(GOTO)  case 9 => Some(IFT)  case 10 => Some(IFF)
    case 11 => Some(IEQ)  case 12 => Some(INE)  case 13 => Some(ILT)  case 14 => Some(ILE)  case 15 => Some(IGT)  case 16 => Some(IGE)
    case 17 => Some(I2F)  case 18 => Some(F2I)
    case 19 => Some(IAND)  case 20 => Some(IOR)
    case 21 => Some(IADD)  case 22 => Some(ISUB)  case 23 => Some(IMUL)  case 24 => Some(IDIV)
    case 25 => Some(IMOD)
    case 26 => Some(FADD)  case 27 => Some(FSUB)  case 28 => Some(FMUL)  case 29 => Some(FDIV)
    case 30 => Some(FCMP)
    case _ => None
  }

  /** Decoding the code of an opcode gives the opcode back. */
  lemma DecodeCode(op: Opcode)
    ensures Decode(Code(op)) == Some(op)
  {
  }

  /** Every code below OpCount is the code of the opcode it decodes to. */
  lemma CodeDecode(w: Word)
    requires w < OpCount
    ensures Code(Decode(w).value) == w
  {
  }

  /** Jump-class opcodes: the contiguous range GOTO..IFF (Assembler::IsJumpOp). */
  predicate IsJumpOp(w: Word)
  {
    Code(GOTO) <= w <= Code(IFF)
  }

  /** IsJumpOp holds of exactly the three branch instructions. */
  lemma JumpOpsAreBranches(w: Word)
    ensures IsJumpOp(w) <==> w == Code(GOTO) || w == Code(IFT) || w == Code(IFF)
  {
  }

  /** The system calls understood by `SYS`. */
  datatype SysCode = SC_EXIT | SC_PRINTC | SC_PRINTI | SC_PRINTF | SC_SLEEP

  function SysValue(c: SysCode): (w: Word)
    ensures w <= 4
  {
    match c
    case SC_EXIT => 0
    case SC_PRINTC => 1
    case SC_PRINTI => 2
    case SC_PRINTF => 3
    case SC_SLEEP => 4
  }

  /** One row of the assembler's opcode table. */
  datatype OpDesc = OpDesc(code: Opcode, name: string, paramcount: nat)

  /** The row describing one opcode: its lower-case mnemonic and parameter count. */
  function Desc(op: Opcode): (d: OpDesc)
    ensures d.code == op
    ensures d.paramcount <= 1
  {
    match op
    case NOOP => OpDesc(NOOP, "noop", 0)
    case SYS => OpDesc(SYS, "sys", 1)
    case PUSH => OpDesc(PUSH, "push", 1)
    case POP => OpDesc(POP, "pop", 0)
    case LOAD => OpDesc(LOAD, "load", 1)
    case STORE => OpDesc(STORE, "store", 1)
    case LOCAL => OpDesc(LOCAL, "local", 1)
    case CALL => OpDesc(CALL, "call", 1)
    case GOTO => OpDesc(GOTO, "goto", 1)
    case IFT => OpDesc(IFT, "ift", 1)
    case IFF => OpDesc(IFF, "iff", 1)
    case IEQ => OpDesc(IEQ, "ieq", 0)
    case INE => OpDesc(INE, "ine", 0)
    case ILT => OpDesc(ILT, "ilt", 0)
    case ILE => OpDesc(ILE, "ile", 0)
    case IGT => OpDesc(IGT, "igt", 0)
    case IGE => OpDesc(IGE, "ige", 0)
    case I2F => OpDesc(I2F, "i2f", 0)
    case F2I => OpDesc(F2I, "f2i", 0)
    case IAND => OpDesc(IAND, "iand", 0)
    case IOR => OpDesc(IOR, "ior", 0)
    case IADD => OpDesc(IADD, "iadd", 0)
    case ISUB => OpDesc(ISUB, "isub", 0)
    case IMUL => OpDesc(IMUL, "imul", 0)
    case IDIV => OpDesc(IDIV, "idiv", 0)
    case IMOD => OpDesc(IMOD, "imod", 0)
    case FADD => OpDesc(FADD, "fadd", 0)
    case FSUB => OpDesc(FSUB, "fsub", 0)
    case FMUL => OpDesc(FMUL, "fmul", 0)
    case FDIV => OpDesc(FDIV, "fdiv", 0)
    case FCMP => OpDesc(FCMP, "fcmp", 0)
  }

  /** The assembler's `opcodes[]` table, stored in the order of the enumeration. */
  function OpTable(): (t: seq<OpDesc>)
    ensures |t| == OpCount
  {
    seq(OpCount, (k: int) requires 0 <= k => Row(k))
  }

  /** The row for code `k`. */
  function Row(k: nat): OpDesc
  {
    if k < OpCount then Desc(Decode(k).value) else Desc(NOOP)
  }

  /** The table is indexed by opcode: `opcodes[c].code == c` for every code c. */
  lemma OpTableIndexedByCode(i: nat)
    requires i < |OpTable()|
    ensures |OpTable()| == OpCount
    ensures Code(OpTable()[i].code) == i
    ensures OpTable()[i] == Desc(Decode(i).value)
  {
    CodeDecode(i);
  }

  /** The code stored in row `i` of the table is `i`. */
  lemma OpTableCode(i: OpIndex)
    ensures Code(OpTable()[i].code) == i
  {
    OpTableIndexedByCode(i);
  }

  /** The row at an opcode's code describes that opcode. */
  lemma DescAt(op: Opcode)
    ensures OpTable()[Code(op)] == Desc(op)
  {
    OpTableIndexedByCode(Code(op));
    DecodeCode(op);
  }

  /** Every jump-class opcode takes a parameter. */
  lemma JumpOpsTakeParameter(w: Word)
    requires IsJumpOp(w)
    ensures w < |OpTable()| && OpTable()[w].paramcount == 1
  {
    var op := if w == Code(GOTO) then GOTO else if w == Code(IFT) then IFT else IFF;
    assert Code(op) == w && Desc(op).paramcount == 1;
    DescAt(op);
  }
}
