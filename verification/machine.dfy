/**
 * The virtual machine: a fetch-execute loop over (opcode, operand) word
 * pairs with a fixed 256-word stack, a movable top pointer and a window of
 * local variables carved out of the stack.
 *
 * The specification layer (State, Step, Run) gives the meaning of one
 * instruction and of a bounded run. What the source leaves undefined
 * (a top pointer leaving the stack, a division by zero, INT_MIN % -1, a fetch
 * past the code, a LOAD/STORE before any LOCAL, a CALL through a missing
 * table entry) is the explicit step result `Undefined`; the imperative
 * machine requires that its run never reaches it.
 */
module Machine {
  import opened Words
  import opened Opcodes
  import opened Bytecode

  const StackSize: nat := 256

  /** The observable effects of the system calls. */
  datatype Event = PutChar(c: Word) | PrintInt(i: Word) | PrintFloat(f: Word) | Sleep(ms: Word)

  /**
   * What the machine cannot compute itself: the result of a native function
   * (by code pointer and argument list, in C parameter order) and the result
   * of a float opcode on its operand words.
   */
  datatype Env = Env(native: (nat, seq<Word>) -> Word, fpu: (Opcode, Word, Word) -> Word)

  /** Machine registers: the stack, the top index, the base of the locals window, the instruction pointer, and the output so far. */
  datatype State = State(stack: seq<Word>, sp: int, locals: Option<nat>, ip: nat, trace: seq<Event>)

  ghost predicate Inv(s: State)
  {
    && |s.stack| == StackSize
    && 0 <= s.sp < StackSize
    && (s.locals.Some? ==> s.locals.value < StackSize)
  }

  datatype StepResult = Next(s: State) | Halt(s: State) | Fault(s: State) | Undefined

  datatype Outcome = Halted(s: State) | Faulted(s: State) | OutOfFuel(s: State) | Undef

  function Abs(x: int): nat
  {
    if x < 0 then -x else x
  }

  /** C's `/` on signed operands: the quotient truncated toward zero. */
  function TruncDiv(a: int, b: int): int
    requires b != 0
  {
    var q := Abs(a) / Abs(b);
    if (a < 0) == (b < 0) then q else -q
  }

  /** C's `%` on signed operands: what is left after the truncated division. */
  function TruncRem(a: int, b: int): (r: int)
    requires b != 0
    ensures Abs(r) < Abs(b)
    ensures r == 0 || (r < 0 <==> a < 0)
    ensures a == TruncDiv(a, b) * b + r
  {
    var m := Abs(a) % Abs(b);
    TruncDivRem(a, b);
    if a < 0 then -m else m
  }

  lemma TruncDivRem(a: int, b: int)
    requires b != 0
    ensures var m := Abs(a) % Abs(b);
            a == TruncDiv(a, b) * b + (if a < 0 then -m else m)
  {
    var q := Abs(a) / Abs(b);
    var m := Abs(a) % Abs(b);
    assert Abs(a) == q * Abs(b) + m;
    if b < 0 {
      assert q * Abs(b) == (-q) * b;
    } else {
      assert q * Abs(b) == q * b;
    }
  }

  /** The result of a two-operand opcode on the next-to-top word `a` and the top word `b`. */
  function Arith(op: Opcode, a: Word, b: Word, env: Env): Word
    requires op in {IAND, IOR, IADD, ISUB, IMUL, IDIV, IMOD, FADD, FSUB, FMUL, FDIV, FCMP}
    requires op in {IDIV, IMOD} ==> b != 0
    requires op == IMOD ==> !(ToSigned(a) == SignedMin && ToSigned(b) == -1)
  {
    match op
    case IAND => Bool(a != 0 && b != 0)
    case IOR => Bool(a != 0 || b != 0)
    case IADD => Wrap(a + b)
    case ISUB => Wrap(a - b)
    case IMUL => Product(a, b)
    case IDIV => a / b
    case IMOD => SignedRem(a, b)
    case _ => env.fpu(op, a, b)
  }

  /** The low 32 bits of the product of two words. */
  function Product(a: Word, b: Word): (r: Word)
    ensures Congruent(r, a * b)
  {
    Wrap(a * b)
  }

  /** C's `%` on the two's-complement readings of two words, stored back as a word. */
  function SignedRem(a: Word, b: Word): (r: Word)
    requires b != 0
    ensures ToSigned(r) == TruncRem(ToSigned(a), ToSigned(b))
  {
    FromSigned(TruncRem(ToSigned(a), ToSigned(b)))
  }

  /** IAND and IOR are the logical connectives on words read as truth values (non-zero is true), with 1 for true. */
  lemma LogicalResults(a: Word, b: Word, env: Env)
    ensures Arith(IAND, a, b, env) == (if a != 0 && b != 0 then 1 else 0)
    ensures Arith(IOR, a, b, env) == (if a != 0 || b != 0 then 1 else 0)
  {
  }

  /** IADD, ISUB and IMUL give the exact sum, difference and product modulo 2^32. */
  lemma WrappingResults(a: Word, b: Word, env: Env)
    ensures Congruent(Arith(IADD, a, b, env), a + b)
    ensures Congruent(Arith(ISUB, a, b, env), a - b)
    ensures Congruent(Arith(IMUL, a, b, env), a * b)
  {
  }

  /** IMOD is C's remainder on the signed readings of the operands. */
  lemma SignedRemainder(a: Word, b: Word, env: Env)
    requires b != 0 && !(ToSigned(a) == SignedMin && ToSigned(b) == -1)
    ensures ToSigned(Arith(IMOD, a, b, env)) == TruncRem(ToSigned(a), ToSigned(b))
  {
  }

  /** IDIV is unsigned division: the quotient is the number of whole divisors that fit in the dividend. */
  lemma UnsignedDivision(a: Word, b: Word, env: Env)
    requires b != 0
    ensures var q := Arith(IDIV, a, b, env);
            q * b <= a < q * b + b
  {
    var q, m := a / b, a % b;
    assert a == q * b + m && 0 <= m < b;
  }

  /** The result of a one-operand test of the top word against zero. */
  function Compare(op: Opcode, v: Word): (r: Word)
    requires op in {IEQ, INE, ILT, ILE, IGT, IGE}
    ensures r == 0 || r == 1
  {
    var x := ToSigned(v);
    match op
    case IEQ => Bool(v == 0)
    case INE => Bool(v != 0)
    case ILT => Bool(x < 0)
    case ILE => Bool(x <= 0)
    case IGT => Bool(x > 0)
    case IGE => Bool(x >= 0)
  }

  /** Stack effect of `VirtualMachine::System` for a non-exit code: codes 1-4 pop one word and emit it. */
  function SystemStep(operand: Word, s: State): (r: StepResult)
    requires Inv(s)
    ensures r.Next? ==> Inv(r.s)
  {
    if 1 <= operand <= 4 then
      if s.sp == 0 then Undefined
      else
        var v := s.stack[s.sp];
        var e := if operand == 1 then PutChar(v) else if operand == 2 then PrintInt(v)
                 else if operand == 3 then PrintFloat(v) else Sleep(v);
        Next(s.(sp := s.sp - 1, trace := s.trace + [e]))
    else Next(s)
  }

  /** The argument list a native function receives: the top `count` words, deepest first. */
  function CallArgs(s: State, count: nat): seq<Word>
    requires Inv(s) && count <= s.sp
  {
    s.stack[s.sp - count + 1 .. s.sp + 1]
  }

  /** Stack effect of `VirtualMachine::Call`: pop the parameters, push one result (0 for a function returning nothing). */
  function CallStep(f: Function, env: Env, s: State): (r: StepResult)
    requires Inv(s)
    ensures r.Next? ==> Inv(r.s)
  {
    if s.sp < f.paramcount || s.sp - f.paramcount + 1 >= StackSize then Undefined
    else
      var result := if f.returncount == 0 then 0 else env.native(f.pointer, CallArgs(s, f.paramcount));
      var top := s.sp - f.paramcount + 1;
      Next(s.(stack := s.stack[top := result], sp := top))
  }

  /** The locals window, native calls, system calls and branches. */
  function ExecControl(op: Opcode, operand: Word, fns: seq<Option<Function>>, env: Env, s: State): (r: StepResult)
    requires Inv(s) && op in {NOOP, SYS, LOCAL, CALL, GOTO, IFT, IFF}
    ensures !r.Undefined? ==> Inv(r.s)
  {
    if op == NOOP then Next(s)
    else if op == LOCAL then
      if s.sp + operand >= StackSize then Undefined
      else Next(s.(locals := Some(s.sp), sp := s.sp + operand))
    else if op == CALL then
      if operand >= |fns| || fns[operand].None? then Undefined
      else CallStep(fns[operand].value, env, s)
    else if op == SYS then
      if operand == 0 then Halt(s) else SystemStep(operand, s)
    else if op == GOTO then Next(s.(ip := operand))
    else if s.sp == 0 then Undefined
    else
      // IFT jumps when the popped word is 1, IFF when it is 0
      var taken := if op == IFT then s.stack[s.sp] == 1 else s.stack[s.sp] == 0;
      Next(s.(sp := s.sp - 1, ip := if taken then operand else s.ip))
  }

  /** Pushes, pops, and the loads and stores relative to the locals window. */
  function ExecMemory(op: Opcode, operand: Word, s: State): (r: StepResult)
    requires Inv(s) && op in {PUSH, POP, LOAD, STORE}
    ensures r.Next? ==> Inv(r.s)
  {
    if op == PUSH then
      if s.sp + 1 >= StackSize then Undefined
      else Next(s.(stack := s.stack[s.sp + 1 := operand], sp := s.sp + 1))
    else if op == POP then
      if s.sp == 0 then Undefined else Next(s.(sp := s.sp - 1))
    else if op == LOAD then
      if s.locals.None? || s.locals.value + operand >= StackSize || s.sp + 1 >= StackSize then Undefined
      else Next(s.(stack := s.stack[s.sp + 1 := s.stack[s.locals.value + operand]], sp := s.sp + 1))
    else // STORE
      if s.locals.None? || s.locals.value + operand >= StackSize then Undefined
      else Next(s.(stack := s.stack[s.locals.value + operand := s.stack[s.sp]]))
  }

  /** Opcodes that replace the top word: the tests against zero and the int/float conversions. */
  function ExecUnary(op: Opcode, env: Env, s: State): (r: StepResult)
    requires Inv(s) && op in {IEQ, INE, ILT, ILE, IGT, IGE, I2F, F2I}
    ensures r.Next? ==> Inv(r.s)
  {
    var v := s.stack[s.sp];
    var w := if op in {I2F, F2I} then env.fpu(op, v, 0) else Compare(op, v);
    Next(s.(stack := s.stack[s.sp := w]))
  }

  /** Opcodes that replace the top two words by one. */
  function ExecBinary(op: Opcode, env: Env, s: State): (r: StepResult)
    requires Inv(s) && op in {IAND, IOR, IADD, ISUB, IMUL, IDIV, IMOD, FADD, FSUB, FMUL, FDIV, FCMP}
    ensures r.Next? ==> Inv(r.s)
  {
    if s.sp == 0 then Undefined
    else
      var b := s.stack[s.sp];
      var a := s.stack[s.sp - 1];
      if op in {IDIV, IMOD} && b == 0 then Undefined
      else if op == IMOD && ToSigned(a) == SignedMin && ToSigned(b) == -1 then Undefined
      else Next(s.(stack := s.stack[s.sp - 1 := Arith(op, a, b, env)], sp := s.sp - 1))
  }

  /** Executes the decoded instruction `op operand`; `s` already has its instruction pointer past the pair. */
  function Exec(op: Opcode, operand: Word, fns: seq<Option<Function>>, env: Env, s: State): (r: StepResult)
    requires Inv(s)
    ensures !r.Undefined? ==> Inv(r.s)
  {
    match op
    case NOOP | SYS | LOCAL | CALL | GOTO | IFT | IFF => ExecControl(op, operand, fns, env, s)
    case PUSH | POP | LOAD | STORE => ExecMemory(op, operand, s)
    case IEQ | INE | ILT | ILE | IGT | IGE | I2F | F2I => ExecUnary(op, env, s)
    case _ => ExecBinary(op, env, s)
  }

  /** One fetch-execute cycle: fetch the pair at ip, advance ip by 2, dispatch; an unknown opcode is a fault. */
  function Step(code: seq<Word>, fns: seq<Option<Function>>, env: Env, s: State): (r: StepResult)
    requires Inv(s)
    ensures !r.Undefined? ==> Inv(r.s)
  {
    if s.ip + 1 >= |code| then Undefined
    else
      var s1 := s.(ip := s.ip + 2);
      match Opcodes.Decode(code[s.ip])
      case None => Fault(s1)
      case Some(op) => Exec(op, code[s.ip + 1], fns, env, s1)
  }

  /** At most `fuel` cycles from `s`. */
  function Run(code: seq<Word>, fns: seq<Option<Function>>, env: Env, s: State, fuel: nat): (r: Outcome)
    requires Inv(s)
    ensures !r.Undef? ==> Inv(r.s)
    decreases fuel, 0
  {
    if fuel == 0 then OutOfFuel(s) else Continue(code, fns, env, s, fuel - 1)
  }

  /** How a run from `s` goes on once one cycle is spent, with `fuel` cycles left after it: fetching past the code is undefined. */
  function Continue(code: seq<Word>, fns: seq<Option<Function>>, env: Env, s: State, fuel: nat): (o: Outcome)
    requires Inv(s)
    ensures !o.Undef? ==> Inv(o.s)
    decreases fuel, 2
  {
    if s.ip + 1 >= |code| then Undef else Dispatch(code, fns, env, s, fuel)
  }

  /** The cycle at an instruction inside the code, and the rest of the run. */
  function Dispatch(code: seq<Word>, fns: seq<Option<Function>>, env: Env, s: State, fuel: nat): (o: Outcome)
    requires Inv(s) && s.ip + 1 < |code|
    ensures !o.Undef? ==> Inv(o.s)
    decreases fuel, 1
  {
    match Step(code, fns, env, s)
    case Next(s') => Run(code, fns, env, s', fuel)
    case Halt(s') => Halted(s')
    case Fault(s') => Faulted(s')
    case Undefined => Undef
  }

  /** The code the machine runs: the container's words, with `SYS SC_EXIT` appended unless they already end with it. */
  function EnsureExit(code: seq<Word>): (r: seq<Word>)
    requires |code| >= 2
    ensures |r| >= 2
    ensures r[|r| - 2] == Code(SYS) && r[|r| - 1] == SysValue(SC_EXIT)
    ensures code[|code| - 2..] == [Code(SYS), SysValue(SC_EXIT)] <==> r == code
    ensures r != code ==> r == code + [Code(SYS), SysValue(SC_EXIT)]
  {
    if code[|code| - 2] == Code(SYS) && code[|code| - 1] == SysValue(SC_EXIT) then code
    else code + [Code(SYS), SysValue(SC_EXIT)]
  }

  /** The registers Execute starts from: the stack as the last run left it, top at slot 0, no locals, ip 0. */
  function Start(stack: seq<Word>): (s: State)
    requires |stack| == StackSize
    ensures Inv(s)
  {
    State(stack, 0, None, 0, [])
  }

  /** The instruction pointer is at a complete instruction whose opcode word is `op`. */
  predicate Fetches(code: seq<Word>, s: State, op: Opcode)
  {
    s.ip + 1 < |code| && code[s.ip] == Code(op)
  }

  /** The operand word of the instruction at the instruction pointer. */
  function Operand(code: seq<Word>, s: State): Word
    requires s.ip + 1 < |code|
  {
    code[s.ip + 1]
  }

  /** A cycle halts exactly on `SYS SC_EXIT` and faults exactly on an opcode word outside the enumeration. */
  lemma HaltsExactlyOnExit(code: seq<Word>, fns: seq<Option<Function>>, env: Env, s: State)
    requires Inv(s)
    ensures Step(code, fns, env, s).Halt? <==> Fetches(code, s, SYS) && Operand(code, s) == SysValue(SC_EXIT)
    ensures Step(code, fns, env, s).Fault? <==> s.ip + 1 < |code| && code[s.ip] >= OpCount
    ensures Step(code, fns, env, s).Halt? ==> Step(code, fns, env, s).s == s.(ip := s.ip + 2)
  {
    if s.ip + 1 < |code| && code[s.ip] < OpCount {
      var op := Opcodes.Decode(code[s.ip]).value;
      DecodeCode(op);
      DecodeCode(SYS);
    }
  }

  /** A cycle at an instruction with a known opcode word moves the instruction pointer past the pair and executes it. */
  lemma StepExec(code: seq<Word>, fns: seq<Option<Function>>, env: Env, s: State)
    requires Inv(s) && s.ip + 1 < |code| && code[s.ip] < OpCount
    ensures Step(code, fns, env, s) == Exec(Opcodes.Decode(code[s.ip]).value, Operand(code, s), fns, env, s.(ip := s.ip + 2))
  {
  }

  /** PUSH stores its operand one above the top and moves the top there; slot 0 is never written by a push. */
  lemma PushStep(code: seq<Word>, fns: seq<Option<Function>>, env: Env, s: State)
    requires Inv(s) && Fetches(code, s, PUSH) && s.sp + 1 < StackSize
    ensures var r := Step(code, fns, env, s);
            && r.Next? && r.s.sp == s.sp + 1 && r.s.ip == s.ip + 2
            && r.s.stack[r.s.sp] == Operand(code, s)
            && r.s.stack[0] == s.stack[0]
            && (forall i :: 0 <= i < StackSize && i != r.s.sp ==> r.s.stack[i] == s.stack[i])
  {
    DecodeCode(PUSH);
  }

  /** POP only moves the top down by one; no word changes. */
  lemma PopStep(code: seq<Word>, fns: seq<Option<Function>>, env: Env, s: State)
    requires Inv(s) && Fetches(code, s, POP) && s.sp > 0
    ensures var r := Step(code, fns, env, s);
            r.Next? && r.s.sp == s.sp - 1 && r.s.stack == s.stack && r.s.ip == s.ip + 2
  {
    DecodeCode(POP);
  }

  /** LOCAL n puts the locals window at the current top and reserves n words above it. */
  lemma LocalStep(code: seq<Word>, fns: seq<Option<Function>>, env: Env, s: State)
    requires Inv(s) && Fetches(code, s, LOCAL) && s.sp + Operand(code, s) < StackSize
    ensures var r := Step(code, fns, env, s);
            && r.Next? && r.s.locals == Some(s.sp) && r.s.sp == s.sp + Operand(code, s)
            && r.s.stack == s.stack
  {
    DecodeCode(LOCAL);
  }

  /** LOAD k pushes local k. */
  lemma LoadStep(code: seq<Word>, fns: seq<Option<Function>>, env: Env, s: State)
    requires Inv(s) && Fetches(code, s, LOAD) && s.locals.Some?
    requires s.locals.value + Operand(code, s) < StackSize && s.sp + 1 < StackSize
    ensures var r := Step(code, fns, env, s);
            && r.Next? && r.s.sp == s.sp + 1
            && r.s.stack == s.stack[s.sp + 1 := s.stack[s.locals.value + Operand(code, s)]]
  {
    DecodeCode(LOAD);
  }

  /** STORE k copies the top into local k and does not pop. */
  lemma StoreStep(code: seq<Word>, fns: seq<Option<Function>>, env: Env, s: State)
    requires Inv(s) && Fetches(code, s, STORE) && s.locals.Some?
    requires s.locals.value + Operand(code, s) < StackSize
    ensures var r := Step(code, fns, env, s);
            && r.Next? && r.s.sp == s.sp
            && r.s.stack == s.stack[s.locals.value + Operand(code, s) := s.stack[s.sp]]
  {
    DecodeCode(STORE);
  }

  /** GOTO jumps; IFT and IFF always pop one word and jump only when it is exactly 1, respectively exactly 0. */
  lemma BranchStep(code: seq<Word>, fns: seq<Option<Function>>, env: Env, s: State)
    requires Inv(s) && (Fetches(code, s, GOTO) || ((Fetches(code, s, IFT) || Fetches(code, s, IFF)) && s.sp > 0))
    ensures var r := Step(code, fns, env, s);
            && r.Next? && r.s.stack == s.stack
            && (Fetches(code, s, GOTO) ==> r.s.sp == s.sp && r.s.ip == Operand(code, s))
            && (Fetches(code, s, IFT) ==>
                  (r.s.sp == s.sp - 1 && r.s.ip == if s.stack[s.sp] == 1 then Operand(code, s) else s.ip + 2))
            && (Fetches(code, s, IFF) ==>
                  (r.s.sp == s.sp - 1 && r.s.ip == if s.stack[s.sp] == 0 then Operand(code, s) else s.ip + 2))
  {
    DecodeCode(GOTO);
    DecodeCode(IFT);
    DecodeCode(IFF);
  }

  /** The tests against zero replace the top with 0 or 1 and keep the depth. */
  lemma CompareStep(code: seq<Word>, fns: seq<Option<Function>>, env: Env, s: State, op: Opcode)
    requires Inv(s) && op in {IEQ, INE, ILT, ILE, IGT, IGE} && Fetches(code, s, op)
    ensures var r := Step(code, fns, env, s);
            && r.Next? && r.s.sp == s.sp
            && (r.s.stack[s.sp] == 0 || r.s.stack[s.sp] == 1)
            && r.s.stack == s.stack[s.sp := Compare(op, s.stack[s.sp])]
  {
    DecodeCode(op);
  }

  /** The two-operand integer opcodes pop one word and overwrite the new top: the depth drops by exactly one. */
  lemma BinaryStep(code: seq<Word>, fns: seq<Option<Function>>, env: Env, s: State, op: Opcode)
    requires Inv(s) && op in {IAND, IOR, IADD, ISUB, IMUL, IDIV, IMOD} && Fetches(code, s, op) && s.sp > 0
    requires op in {IDIV, IMOD} ==> s.stack[s.sp] != 0
    requires op == IMOD ==> !(ToSigned(s.stack[s.sp - 1]) == SignedMin && ToSigned(s.stack[s.sp]) == -1)
    ensures var r := Step(code, fns, env, s);
            && r.Next? && r.s.sp == s.sp - 1
            && r.s.stack == s.stack[s.sp - 1 := Arith(op, s.stack[s.sp - 1], s.stack[s.sp], env)]
  {
    var s1 := s.(ip := s.ip + 2);
    StepExec(code, fns, env, s);
    DecodeCode(op);
    assert Exec(op, Operand(code, s), fns, env, s1) == ExecBinary(op, env, s1);
  }

  /** `SYS c` for c in 1..4 pops exactly one word and records it; any other non-exit code changes nothing. */
  lemma SystemCallStep(code: seq<Word>, fns: seq<Option<Function>>, env: Env, s: State)
    requires Inv(s) && Fetches(code, s, SYS) && Operand(code, s) != SysValue(SC_EXIT)
    requires 1 <= Operand(code, s) <= 4 ==> s.sp > 0
    ensures var r := Step(code, fns, env, s);
            && r.Next? && r.s.stack == s.stack && r.s.ip == s.ip + 2
            && (1 <= Operand(code, s) <= 4 ==> r.s.sp == s.sp - 1 && |r.s.trace| == |s.trace| + 1)
            && (!(1 <= Operand(code, s) <= 4) ==> r.s.sp == s.sp && r.s.trace == s.trace)
  {
    DecodeCode(SYS);
  }

  /** `CALL k` pops the parameters and pushes exactly one word, 0 for a function that returns nothing. */
  lemma CallInstructionStep(code: seq<Word>, fns: seq<Option<Function>>, env: Env, s: State)
    requires Inv(s) && Fetches(code, s, CALL) && Operand(code, s) < |fns| && fns[Operand(code, s)].Some?
    requires fns[Operand(code, s)].value.paramcount <= s.sp
    requires s.sp - fns[Operand(code, s)].value.paramcount + 1 < StackSize
    ensures var f := fns[Operand(code, s)].value;
            var r := Step(code, fns, env, s);
            && r.Next? && r.s.sp == s.sp - f.paramcount + 1
            && (f.returncount == 0 ==> r.s.stack[r.s.sp] == 0)
            && (forall i :: 0 <= i < StackSize && i != r.s.sp ==> r.s.stack[i] == s.stack[i])
  {
    DecodeCode(CALL);
  }

  /** `push 7; push 3; isub; push 0; ine; sys 0` */
  const IneExample: seq<Word> :=
    [Code(PUSH), 7, Code(PUSH), 3, Code(ISUB), 0, Code(PUSH), 0, Code(INE), 0, Code(SYS), 0]

  /** The first five cycles of the example: 7 - 3 lands in slot 1, and INE turns the pushed 0 in slot 2 into 0. */
  lemma IneExamplePrefix(fns: seq<Option<Function>>, env: Env, stack: seq<Word>)
    requires |stack| == StackSize
    ensures Run(IneExample, fns, env, Start(stack), 6)
         == Run(IneExample, fns, env, State(stack[1 := 4][2 := 0], 2, None, 10, []), 1)
  {
    var code := IneExample;
    var s0 := Start(stack);
    PushStep(code, fns, env, s0);
    var s1 := Step(code, fns, env, s0).s;
    assert s1 == State(stack[1 := 7], 1, None, 2, []);
    PushStep(code, fns, env, s1);
    var s2 := Step(code, fns, env, s1).s;
    assert s2 == State(stack[1 := 7][2 := 3], 2, None, 4, []);
    BinaryStep(code, fns, env, s2, ISUB);
    var s3 := Step(code, fns, env, s2).s;
    assert s3 == State(stack[1 := 4][2 := 3], 1, None, 6, []);
    PushStep(code, fns, env, s3);
    var s4 := Step(code, fns, env, s3).s;
    assert s4 == State(stack[1 := 4][2 := 0], 2, None, 8, []);
    CompareStep(code, fns, env, s4, INE);
    var s5 := Step(code, fns, env, s4).s;
    assert s5 == State(stack[1 := 4][2 := 0], 2, None, 10, []);
    RunCycle(code, fns, env, s0, 6);
    RunCycle(code, fns, env, s1, 5);
    RunCycle(code, fns, env, s2, 4);
    RunCycle(code, fns, env, s3, 3);
    RunCycle(code, fns, env, s4, 2);
  }

  /**
   * The example halts with the difference 4 in slot 1 and 0 on top:
   * INE tests the pushed 0, not the difference.
   */
  lemma PushZeroIneExample(fns: seq<Option<Function>>, env: Env, stack: seq<Word>)
    requires |stack| == StackSize
    ensures var r := Run(IneExample, fns, env, Start(stack), 6);
            && r.Halted? && r.s.sp == 2 && r.s.stack[1] == 4 && r.s.stack[2] == 0
  {
    IneExamplePrefix(fns, env, stack);
    var s5 := State(stack[1 := 4][2 := 0], 2, None, 10, []);
    assert IneExample[10] == Code(SYS) && IneExample[11] == 0;
    RunHalts(IneExample, fns, env, s5, 1);
    var r := Run(IneExample, fns, env, Start(stack), 6);
    assert r == Halted(s5.(ip := 12));
    assert r.s.stack == stack[1 := 4][2 := 0] && r.s.sp == 2;
  }

  /** `push 7; push 3; isub; ine; sys 0`: the difference tested directly. */
  const DiffIneExample: seq<Word> :=
    [Code(PUSH), 7, Code(PUSH), 3, Code(ISUB), 0, Code(INE), 0, Code(SYS), 0]

  /** Testing the difference itself halts with 1 on top, since 7 - 3 is not zero. */
  lemma DiffIneHaltsWithOne(fns: seq<Option<Function>>, env: Env, stack: seq<Word>)
    requires |stack| == StackSize
    ensures var r := Run(DiffIneExample, fns, env, Start(stack), 5);
            && r.Halted? && r.s.sp == 1 && r.s.stack[1] == 1
  {
    var code := DiffIneExample;
    var s0 := Start(stack);
    PushStep(code, fns, env, s0);
    var s1 := Step(code, fns, env, s0).s;
    assert s1 == State(stack[1 := 7], 1, None, 2, []);
    PushStep(code, fns, env, s1);
    var s2 := Step(code, fns, env, s1).s;
    assert s2 == State(stack[1 := 7][2 := 3], 2, None, 4, []);
    BinaryStep(code, fns, env, s2, ISUB);
    var s3 := Step(code, fns, env, s2).s;
    assert s3 == State(stack[1 := 4][2 := 3], 1, None, 6, []);
    CompareStep(code, fns, env, s3, INE);
    var s4 := Step(code, fns, env, s3).s;
    assert s4 == State(stack[1 := 1][2 := 3], 1, None, 8, []);
    RunCycle(code, fns, env, s0, 5);
    RunCycle(code, fns, env, s1, 4);
    RunCycle(code, fns, env, s2, 3);
    RunCycle(code, fns, env, s3, 2);
    assert code[8] == Code(SYS) && code[9] == 0;
    RunHalts(code, fns, env, s4, 1);
  }

  /** A run that fetches `SYS SC_EXIT` halts there, whatever fuel is left. */
  lemma RunHalts(code: seq<Word>, fns: seq<Option<Function>>, env: Env, s: State, fuel: nat)
    requires Inv(s) && fuel > 0 && Fetches(code, s, SYS) && Operand(code, s) == SysValue(SC_EXIT)
    ensures Run(code, fns, env, s, fuel) == Halted(s.(ip := s.ip + 2))
  {
    HaltsExactlyOnExit(code, fns, env, s);
    RunCycle(code, fns, env, s, fuel);
  }

  /** A run of at least one cycle is that cycle, then (only if it continues) the rest of the run. */
  lemma RunCycle(code: seq<Word>, fns: seq<Option<Function>>, env: Env, s: State, fuel: nat)
    requires Inv(s) && fuel > 0
    ensures Run(code, fns, env, s, fuel) ==
      match Step(code, fns, env, s)
      case Next(s') => Run(code, fns, env, s', fuel - 1)
      case Halt(s') => Halted(s')
      case Fault(s') => Faulted(s')
      case Undefined => Undef
  {
    assert Run(code, fns, env, s, fuel) == Continue(code, fns, env, s, fuel - 1);
    if s.ip + 1 < |code| {
      assert Continue(code, fns, env, s, fuel - 1) == Dispatch(code, fns, env, s, fuel - 1);
    }
  }

  class VirtualMachine {
    const stack: array<Word>
    var stackpos: int

    ghost predicate Valid()
      reads this
    {
      stack.Length == StackSize && 0 <= stackpos < StackSize
    }

    /** The registers held by this object together with the loop's locals. */
    function Regs(locals: Option<nat>, cur: nat, trace: seq<Event>): State
      reads this, stack
    {
      State(stack[..], stackpos, locals, cur, trace)
    }

    constructor ()
      ensures Valid() && fresh(stack) && stackpos == 0
      ensures forall i :: 0 <= i < StackSize ==> stack[i] == 0
    {
      stack := new Word[StackSize](_ => 0);
      stackpos := 0;
    }

    /** A non-exit system call: codes 1-4 pop one word and emit it; any other code changes nothing and reports false. */
    method System(operand: Word, ghost locals: Option<nat>, ghost cur: nat, trace: seq<Event>) returns (handled: bool, trace': seq<Event>)
      requires Valid() && (locals.Some? ==> locals.value < StackSize)
      requires 1 <= operand <= 4 ==> stackpos >= 1
      modifies this
      ensures Valid()
      ensures handled <==> 1 <= operand <= 4
      ensures handled ==> stackpos == old(stackpos) - 1 && |trace'| == |trace| + 1 && trace'[..|trace|] == trace
      ensures !handled ==> stackpos == old(stackpos) && trace' == trace
      ensures SystemStep(operand, old(Regs(locals, cur, trace))) == Next(Regs(locals, cur, trace'))
    {
      handled := true;
      trace' := trace;
      var v := stack[stackpos];
      if operand == 1 {
        trace' := trace + [PutChar(v)];
      } else if operand == 2 {
        trace' := trace + [PrintInt(v)];
      } else if operand == 3 {
        trace' := trace + [PrintFloat(v)];
      } else if operand == 4 {
        trace' := trace + [Sleep(v)];
      } else {
        handled := false;
      }
      if handled {
        stackpos := stackpos - 1;
      }
    }

    /**
     * A native call: pops `paramcount` words (the last argument first), and
     * pushes exactly one word, 0 when the function returns nothing.
     */
    method Call(f: Function, env: Env, ghost locals: Option<nat>, ghost cur: nat, ghost trace: seq<Event>) returns (ok: bool)
      requires Valid() && (locals.Some? ==> locals.value < StackSize)
      requires stackpos >= f.paramcount && stackpos - f.paramcount + 1 < StackSize
      modifies this, stack
      ensures Valid() && ok
      ensures stackpos == old(stackpos) - f.paramcount + 1
      ensures f.returncount == 0 ==> stack[stackpos] == 0
      ensures forall i :: 0 <= i < StackSize && i != stackpos ==> stack[i] == old(stack[i])
      ensures CallStep(f, env, old(Regs(locals, cur, trace))) == Next(Regs(locals, cur, trace))
    {
      ghost var s0 := Regs(locals, cur, trace);
      var args: seq<Word> := [];
      var i: nat := 0;
      while i < f.paramcount
        modifies this
        invariant 0 <= i <= f.paramcount
        invariant stackpos == s0.sp - i
        invariant args == s0.stack[s0.sp - i + 1 .. s0.sp + 1]
      {
        args := [stack[stackpos]] + args;
        stackpos := stackpos - 1;
        i := i + 1;
      }
      var r: Word := if f.returncount == 0 then 0 else env.native(f.pointer, args);
      stackpos := stackpos + 1;
      stack[stackpos] := r;
      ok := true;
    }

    /** The control opcodes on this machine, as `ExecControl` specifies. */
    method Control(op: Opcode, operand: Word, fns: seq<Option<Function>>, env: Env, locals: Option<nat>, cur: nat, trace: seq<Event>)
      returns (r: StepResult, locals': Option<nat>, cur': nat, trace': seq<Event>)
      requires Valid() && Inv(Regs(locals, cur, trace)) && op in {NOOP, SYS, LOCAL, CALL, GOTO, IFT, IFF}
      requires ExecControl(op, operand, fns, env, Regs(locals, cur, trace)) != Undefined
      modifies this, stack
      ensures Valid()
      ensures r == ExecControl(op, operand, fns, env, old(Regs(locals, cur, trace)))
      ensures !r.Undefined? && r.s == Regs(locals', cur', trace')
    {
      locals', cur', trace' := locals, cur, trace;
      match op {
        case NOOP =>
        case LOCAL =>
          locals' := Some(stackpos);
          stackpos := stackpos + operand;
        case CALL =>
          var _ := Call(fns[operand].value, env, locals', cur', trace');
        case SYS =>
          if operand == 0 {
            return Halt(Regs(locals', cur', trace')), locals', cur', trace';
          }
          var _, t := System(operand, locals', cur', trace');
          trace' := t;
        case GOTO =>
          cur' := operand;
        case IFT =>
          var v := stack[stackpos];
          stackpos := stackpos - 1;
          if v == 1 { cur' := operand; }
        case IFF =>
          var v := stack[stackpos];
          stackpos := stackpos - 1;
          if v == 0 { cur' := operand; }
      }
      r := Next(Regs(locals', cur', trace'));
    }

    /** PUSH, POP, LOAD and STORE on this machine, as `ExecMemory` specifies. */
    method Memory(op: Opcode, operand: Word, locals: Option<nat>, cur: nat, trace: seq<Event>) returns (r: StepResult)
      requires Valid() && Inv(Regs(locals, cur, trace)) && op in {PUSH, POP, LOAD, STORE}
      requires ExecMemory(op, operand, Regs(locals, cur, trace)) != Undefined
      modifies this, stack
      ensures Valid()
      ensures r == ExecMemory(op, operand, old(Regs(locals, cur, trace)))
      ensures !r.Undefined? && r.s == Regs(locals, cur, trace)
    {
      match op {
        case PUSH =>
          stackpos := stackpos + 1;
          stack[stackpos] := operand;
        case POP =>
          stackpos := stackpos - 1;
        case LOAD =>
          var v := stack[locals.value + operand];
          stackpos := stackpos + 1;
          stack[stackpos] := v;
        case STORE =>
          stack[locals.value + operand] := stack[stackpos];
      }
      r := Next(Regs(locals, cur, trace));
    }

    /** The one-operand opcodes on this machine, as `ExecUnary` specifies. */
    method Unary(op: Opcode, env: Env, locals: Option<nat>, cur: nat, trace: seq<Event>) returns (r: StepResult)
      requires Valid() && Inv(Regs(locals, cur, trace)) && op in {IEQ, INE, ILT, ILE, IGT, IGE, I2F, F2I}
      modifies stack
      ensures Valid()
      ensures r == ExecUnary(op, env, old(Regs(locals, cur, trace)))
      ensures !r.Undefined? && r.s == Regs(locals, cur, trace)
    {
      var v := stack[stackpos];
      if op == I2F || op == F2I {
        stack[stackpos] := env.fpu(op, v, 0);
      } else {
        stack[stackpos] := Compare(op, v);
      }
      r := Next(Regs(locals, cur, trace));
    }

    /** The two-operand opcodes on this machine, as `ExecBinary` specifies. */
    method Binary(op: Opcode, env: Env, locals: Option<nat>, cur: nat, trace: seq<Event>) returns (r: StepResult)
      requires Valid() && Inv(Regs(locals, cur, trace))
      requires op in {IAND, IOR, IADD, ISUB, IMUL, IDIV, IMOD, FADD, FSUB, FMUL, FDIV, FCMP}
      requires ExecBinary(op, env, Regs(locals, cur, trace)) != Undefined
      modifies this, stack
      ensures Valid()
      ensures r == ExecBinary(op, env, old(Regs(locals, cur, trace)))
      ensures !r.Undefined? && r.s == Regs(locals, cur, trace)
    {
      var b := stack[stackpos];
      stackpos := stackpos - 1;
      var a := stack[stackpos];
      stack[stackpos] := Arith(op, a, b, env);
      r := Next(Regs(locals, cur, trace));
    }

    /** One fetch-execute cycle on this machine's stack, as `Step` specifies. */
    method Cycle(code: seq<Word>, fns: seq<Option<Function>>, env: Env, locals: Option<nat>, cur: nat, trace: seq<Event>)
      returns (r: StepResult, locals': Option<nat>, cur': nat, trace': seq<Event>)
      requires Valid() && Inv(Regs(locals, cur, trace))
      requires Step(code, fns, env, Regs(locals, cur, trace)) != Undefined
      modifies this, stack
      ensures Valid()
      ensures r == Step(code, fns, env, old(Regs(locals, cur, trace)))
      ensures !r.Undefined? && r.s == Regs(locals', cur', trace')
    {
      var opcode := code[cur];
      var operand := code[cur + 1];
      locals', cur', trace' := locals, cur + 2, trace;
      var dop := Opcodes.Decode(opcode);
      if dop.None? {
        r := Fault(Regs(locals', cur', trace'));
        return;
      }
      var op := dop.value;
      StepExec(code, fns, env, Regs(locals, cur, trace));
      match op {
        case NOOP | SYS | LOCAL | CALL | GOTO | IFT | IFF =>
          r, locals', cur', trace' := Control(op, operand, fns, env, locals', cur', trace');
        case PUSH | POP | LOAD | STORE =>
          r := Memory(op, operand, locals', cur', trace');
        case IEQ | INE | ILT | ILE | IGT | IGE | I2F | F2I =>
          r := Unary(op, env, locals', cur', trace');
        case _ =>
          r := Binary(op, env, locals', cur', trace');
      }
    }

    /** One cycle of `Loop`: how the run from `s` continues after it. */
    method Advance(code: seq<Word>, fns: seq<Option<Function>>, env: Env, ghost s: State, ghost n: nat, ghost target: Outcome,
                   locals: Option<nat>, cur: nat, trace: seq<Event>)
      returns (r: StepResult, locals': Option<nat>, cur': nat, trace': seq<Event>)
      requires Valid() && Inv(s) && s == Regs(locals, cur, trace)
      requires n > 0 && Run(code, fns, env, s, n) == target && target != Undef
      modifies this, stack
      ensures Valid() && !r.Undefined? && Inv(r.s) && r.s == Regs(locals', cur', trace')
      ensures r.Next? ==> Run(code, fns, env, r.s, n - 1) == target
      ensures r.Halt? ==> target == Halted(r.s)
      ensures r.Fault? ==> target == Faulted(r.s)
    {
      RunCycle(code, fns, env, s, n);
      r, locals', cur', trace' := Cycle(code, fns, env, locals, cur, trace);
    }

    /** Runs `code` from the start registers for at most `fuel` cycles, as `Run` specifies. */
    method Loop(code: seq<Word>, fns: seq<Option<Function>>, env: Env, fuel: nat) returns (outcome: Outcome, trace: seq<Event>)
      requires Valid()
      requires Run(code, fns, env, Start(stack[..]), fuel) != Undef
      modifies this, stack
      ensures Valid()
      ensures outcome == Run(code, fns, env, old(Start(stack[..])), fuel)
      ensures !outcome.Undef? && outcome.s == Regs(outcome.s.locals, outcome.s.ip, trace)
    {
      ghost var start := Start(stack[..]);
      var locals: Option<nat> := None;
      var cur: nat := 0;
      stackpos := 0;
      trace := [];
      var n := fuel;
      ghost var s := Regs(locals, cur, trace);
      ghost var target := Run(code, fns, env, start, fuel);
      assert s == start;
      while n > 0
        invariant Valid() && Inv(s) && s == Regs(locals, cur, trace)
        invariant Run(code, fns, env, s, n) == target
        decreases n
      {
        var r;
        r, locals, cur, trace := Advance(code, fns, env, s, n, target, locals, cur, trace);
        if !r.Next? {
          outcome := if r.Halt? then Halted(r.s) else Faulted(r.s);
          return;
        }
        assert Run(code, fns, env, r.s, n - 1) == target;
        s := r.s;
        n := n - 1;
      }
      outcome := OutOfFuel(Regs(locals, cur, trace));
    }

    /**
     * `VirtualMachine::Execute`: appends `SYS SC_EXIT` when the code does
     * not already end with it, then runs for at most `fuel` cycles.
     * Returns true exactly when `SYS SC_EXIT` is dispatched.
     */
    method Execute(asm: Assembly, env: Env, fuel: nat) returns (ok: bool, outcome: Outcome, trace: seq<Event>)
      requires Valid() && asm.Valid() && |asm.Words()| >= 2 && asm.bytecode != stack
      requires Run(EnsureExit(asm.Words()), asm.functions, env, Start(stack[..]), fuel) != Undef
      modifies this, stack, asm, asm.bytecode
      ensures Valid() && asm.Valid()
      ensures asm.Words() == EnsureExit(old(asm.Words())) && asm.functions == old(asm.functions)
      ensures outcome == Run(EnsureExit(old(asm.Words())), old(asm.functions), env, old(Start(stack[..])), fuel)
      ensures ok <==> outcome.Halted?
      ensures !outcome.Undef? && outcome.s == Regs(outcome.s.locals, outcome.s.ip, trace)
    {
      var size := asm.GetSize();
      var words := asm.Words();
      if !(words[size - 2] == Code(SYS) && words[size - 1] == SysValue(SC_EXIT)) {
        var _ := asm.WriteOp(Code(SYS), SysValue(SC_EXIT));
      }
      var code := asm.Words();
      assert code == EnsureExit(words) && stack[..] == old(stack[..]);
      outcome, trace := Loop(code, asm.functions, env, fuel);
      ok := outcome.Halted?;
    }
  }
}
