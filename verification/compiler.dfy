/**
 * The compiler back end: the symbol tables the parser fills, the semantic
 * pass over the syntax tree, the lowering of the tree to a chain of Ops,
 * the assembly of that chain into bytecode, and the binding of function
 * symbols to imported native functions.
 */
module Compiler {
  import opened Words
  import opened Opcodes
  import opened Bytecode
  import opened Ir
  import CText

  /** A reported error: its text and the source line (0 when there is none). */
  datatype Diagnostic = Diagnostic(message: string, line: nat)

  // ---------------------------------------------------------------------
  // Symbol tables
  // ---------------------------------------------------------------------

  /** The first symbol named `name`. */
  function Lookup(entries: seq<Symbol>, name: string): (r: Option<Symbol>)
    ensures r.Some? ==> r.value in entries && r.value.contents == name
    ensures r.None? ==> forall i :: 0 <= i < |entries| ==> entries[i].contents != name
  {
    if entries == [] then None
    else if entries[0].contents == name then Some(entries[0])
    else Lookup(entries[1..], name)
  }

  /** The position of the first symbol named `name`. */
  function Position(entries: seq<Symbol>, name: string): (r: Option<nat>)
    ensures r.Some? ==> r.value < |entries| && entries[r.value].contents == name
    ensures r.Some? ==> forall i :: 0 <= i < r.value ==> entries[i].contents != name
    ensures r.None? <==> Lookup(entries, name).None?
    ensures r.Some? ==> Lookup(entries, name) == Some(entries[r.value])
  {
    if entries == [] then None
    else if entries[0].contents == name then Some(0)
    else match Position(entries[1..], name)
      case None => None
      case Some(k) => Some(k + 1)
  }

  /** No name occurs twice. */
  predicate Distinct(entries: seq<Symbol>)
  {
    forall i, j :: 0 <= i < j < |entries| ==> entries[i].contents != entries[j].contents
  }

  /** Tables whose entries carry the same names in the same order answer the same name lookups. */
  lemma {:induction false} LookupSameNames(a: seq<Symbol>, b: seq<Symbol>, name: string)
    requires |a| == |b| && forall i :: 0 <= i < |a| ==> a[i].contents == b[i].contents
    ensures Lookup(a, name).Some? <==> Lookup(b, name).Some?
    ensures Position(a, name) == Position(b, name)
  {
    if a != [] {
      LookupSameNames(a[1..], b[1..], name);
    }
  }

  /**
   * A string-keyed table of symbols (variables, constants or functions).
   * The entries are kept in the order the table iterates them.
   */
  class SymbolTable {
    var entries: seq<Symbol>

    ghost predicate Valid()
      reads this
    {
      Distinct(entries)
    }

    constructor ()
      ensures Valid() && entries == []
    {
      entries := [];
    }

    /** GetVariable / GetConstant / GetFunction: the symbol named `name`, created at `line` if there is none yet. */
    method Get(name: string, line: nat) returns (s: Symbol)
      requires Valid()
      modifies this
      ensures Valid()
      ensures Lookup(old(entries), name).Some? ==> entries == old(entries) && s == Lookup(old(entries), name).value
      ensures Lookup(old(entries), name).None? ==> entries == old(entries) + [NewSymbol(name, line)] && s == NewSymbol(name, line)
      ensures Lookup(entries, name) == Some(s)
    {
      var k := Position(entries, name);
      if k.Some? {
        return entries[k.value];
      }
      s := NewSymbol(name, line);
      LookupAppend(entries, s, name);
      DistinctAppend(entries, s);
      entries := entries + [s];
    }

    /** Numbers the symbols 0, 1, 2, ... in iteration order. */
    method SetIndices()
      requires Valid()
      modifies this
      ensures Valid() && |entries| == |old(entries)|
      ensures forall j :: 0 <= j < |entries| ==> entries[j] == old(entries[j]).(index := Wrap(j))
    {
      var j := 0;
      while j < |entries|
        invariant 0 <= j <= |entries| == |old(entries)|
        invariant forall i :: 0 <= i < j ==> entries[i] == old(entries[i]).(index := Wrap(i))
        invariant forall i :: j <= i < |entries| ==> entries[i] == old(entries[i])
      {
        entries := entries[j := entries[j].(index := Wrap(j))];
        j := j + 1;
      }
    }

    /** Deletes every symbol. */
    method Clear()
      modifies this
      ensures Valid() && entries == []
    {
      entries := [];
    }
  }

  lemma {:induction false} LookupAppend(entries: seq<Symbol>, s: Symbol, name: string)
    requires Lookup(entries, name).None? && s.contents == name
    ensures Lookup(entries + [s], name) == Some(s)
  {
    if entries != [] {
      assert (entries + [s])[1..] == entries[1..] + [s];
      LookupAppend(entries[1..], s, name);
    }
  }

  /** Adding a symbol whose name is absent keeps the names distinct. */
  lemma DistinctAppend(entries: seq<Symbol>, s: Symbol)
    requires Distinct(entries) && Lookup(entries, s.contents).None?
    ensures Distinct(entries + [s])
  {
    var e := entries + [s];
    forall i, j | 0 <= i < j < |e|
      ensures e[i].contents != e[j].contents
    {
      if j == |entries| {
        assert e[i] == entries[i];
      } else {
        assert e[i] == entries[i] && e[j] == entries[j];
      }
    }
  }

  /** The three tables as Build and the semantic pass read them. */
  datatype Tables = Tables(variables: seq<Symbol>, constants: seq<Symbol>, functions: seq<Symbol>)

  // ---------------------------------------------------------------------
  // Semantic pass
  // ---------------------------------------------------------------------

  /** The result type the semantic pass gives a node of kind `k` whose type is currently `current`. */
  function RetType(k: NodeType, current: DataType): DataType
  {
    match k
    case NT_STMT | NT_EMPTY | NT_EXPR | NT_WHILE | NT_DOWHILE | NT_IFTHEN | NT_IFTHENELSE => DT_VOID
    case NT_EQUAL | NT_NEQUAL | NT_LESS | NT_LEQUAL | NT_GREATER | NT_GEQUAL | NT_BOOLAND | NT_BOOLOR => DT_BOOL
    case NT_ADD | NT_SUB | NT_MUL | NT_DIV | NT_ASSIGN | NT_IDENT | NT_INT => DT_INT
    case NT_ERROR | NT_PARAM | NT_CALL | NT_MOD => current
  }

  /** The number of parameters a call passes: walk the `c1` links of PARAM nodes, counting each node that is not EMPTY. */
  function ParamCount(n: Node): nat
  {
    if n == Null then 0
    else (if n.kind != NT_EMPTY then 1 else 0) + (if n.kind == NT_PARAM then ParamCount(n.c1) else 0)
  }

  /** The counting loop of CheckFunctionSemantics. */
  method CountParams(call: Node) returns (count: nat)
    requires call != Null
    ensures count == ParamCount(call.c0)
  {
    count := 0;
    var n := call.c0;
    while n != Null
      invariant count + ParamCount(n) == ParamCount(call.c0)
      decreases n
    {
      if n.kind != NT_EMPTY {
        count := count + 1;
      }
      if n.kind != NT_PARAM {
        break;
      }
      n := n.c1;
    }
  }

  /** The native function bound to the symbol a call node names, if any. */
  function BoundFunction(node: Node, fns: seq<Symbol>): Option<Function>
    requires node != Null
  {
    if node.symbol.None? then None
    else match Lookup(fns, node.symbol.value)
      case None => None
      case Some(s) => s.data
  }

  /** What a check reports: its verdict and the errors it recorded. */
  datatype Verdict = Verdict(ok: bool, errors: seq<Diagnostic>)

  function ArityMessage(f: Function, count: nat): string
  {
    "'" + f.name + "' : function does not take " + CText.Decimal(count) + " parameters"
  }

  /**
   * CheckFunctionSemantics: a call whose symbol has no bound function fails
   * silently; otherwise it passes iff it passes as many parameters as the
   * function takes, and a mismatch records one error at the call's line.
   */
  function CheckFunctionSemantics(node: Node, fns: seq<Symbol>): (r: Verdict)
    requires node != Null
    ensures BoundFunction(node, fns).None? ==> !r.ok && r.errors == []
    ensures BoundFunction(node, fns).Some? ==>
      (r.ok <==> ParamCount(node.c0) == BoundFunction(node, fns).value.paramcount)
    ensures |r.errors| == (if r.ok || BoundFunction(node, fns).None? then 0 else 1)
    ensures forall e :: e in r.errors ==> e.line == node.line
  {
    match BoundFunction(node, fns)
    case None => Verdict(false, [])
    case Some(f) =>
      var count := ParamCount(node.c0);
      if count == f.paramcount then Verdict(true, [])
      else Verdict(false, [Diagnostic(ArityMessage(f, count), node.line)])
  }

  /** Every call in the tree whose function is bound passes that function's number of parameters. */
  predicate CallsMatch(n: Node, fns: seq<Symbol>)
  {
    n == Null ||
    (&& CallsMatch(n.c0, fns) && CallsMatch(n.c1, fns) && CallsMatch(n.c2, fns)
     && (n.kind == NT_CALL && BoundFunction(n, fns).Some? ==> ParamCount(n.c0) == BoundFunction(n, fns).value.paramcount))
  }

  /** The tree with every result type reset: what the semantic pass must leave alone. */
  function Strip(n: Node): Node
  {
    if n == Null then Null
    else n.(c0 := Strip(n.c0), c1 := Strip(n.c1), c2 := Strip(n.c2), rettype := DT_VOID)
  }

  /** Every node of `r` carries the result type the pass gives the node in the same place in `n`. */
  predicate Typed(r: Node, n: Node)
  {
    && (r == Null <==> n == Null)
    && (n != Null ==>
         && r.rettype == RetType(n.kind, n.rettype)
         && Typed(r.c0, n.c0) && Typed(r.c1, n.c1) && Typed(r.c2, n.c2))
  }

  /** The annotated tree and the errors, in the order the pass records them. */
  datatype Checked = Checked(tree: Node, errors: seq<Diagnostic>)

  /**
   * CheckSemantics: checks the non-null children first, then sets the
   * node's result type and checks a call's parameter count.
   */
  function CheckSemantics(n: Node, fns: seq<Symbol>): (r: Checked)
    ensures Strip(r.tree) == Strip(n)
    ensures (n == Null) == (r.tree == Null)
    ensures n != Null ==> r.tree.rettype == RetType(n.kind, n.rettype)
    ensures Typed(r.tree, n)
    ensures r.errors == [] <==> CallsMatch(n, fns)
  {
    if n == Null then Checked(Null, [])
    else
      var a := CheckSemantics(n.c0, fns);
      var b := CheckSemantics(n.c1, fns);
      var c := CheckSemantics(n.c2, fns);
      var own := if n.kind == NT_CALL then CheckFunctionSemantics(n, fns).errors else [];
      Checked(n.(c0 := a.tree, c1 := b.tree, c2 := c.tree, rettype := RetType(n.kind, n.rettype)),
              a.errors + b.errors + c.errors + own)
  }

  /** The parameter count does not depend on result types. */
  lemma {:induction false} ParamCountStrip(n: Node)
    ensures ParamCount(Strip(n)) == ParamCount(n)
  {
    if n != Null {
      ParamCountStrip(n.c1);
    }
  }

  /** The pass only reads kinds, symbols and links, so running it on its own output changes nothing. */
  lemma {:induction false} CheckSemanticsIdempotent(n: Node, fns: seq<Symbol>)
    ensures CheckSemantics(CheckSemantics(n, fns).tree, fns) == CheckSemantics(n, fns)
  {
    if n != Null {
      ParamCountStrip(n.c0);
      ParamCountStrip(CheckSemantics(n.c0, fns).tree);
      CheckSemanticsIdempotent(n.c0, fns);
      CheckSemanticsIdempotent(n.c1, fns);
      CheckSemanticsIdempotent(n.c2, fns);
    }
  }

  // ---------------------------------------------------------------------
  // Lowering to Ops
  // ---------------------------------------------------------------------

  /** The symbol named by the node, looked up in `table`. */
  predicate Names(n: Node, table: seq<Symbol>)
    requires n != Null
  {
    n.symbol.Some? && Lookup(table, n.symbol.value).Some?
  }

  /** How many children Build lowers for a node of kind `k`. */
  function Arity(k: NodeType): nat
  {
    match k
    case NT_ERROR | NT_EMPTY | NT_IDENT | NT_INT => 0
    case NT_EXPR | NT_CALL | NT_ASSIGN => 1
    case NT_IFTHENELSE => 3
    case _ => 2
  }

  /** The symbol Build reads for a node of kind `k` must be in this table, if any. */
  function SymbolTableOf(k: NodeType, t: Tables): Option<seq<Symbol>>
  {
    match k
    case NT_CALL => Some(t.functions)
    case NT_ASSIGN | NT_IDENT => Some(t.variables)
    case NT_INT => Some(t.constants)
    case _ => None
  }

  /** Every child Build follows is present, and every symbol it reads is in its table. */
  predicate WellFormed(n: Node, t: Tables)
  {
    && n != Null
    && (Arity(n.kind) >= 1 ==> WellFormed(n.c0, t))
    && (Arity(n.kind) >= 2 ==> WellFormed(n.c1, t))
    && (Arity(n.kind) >= 3 ==> WellFormed(n.c2, t))
    && (SymbolTableOf(n.kind, t).Some? ==> Names(n, SymbolTableOf(n.kind, t).value))
  }

  predicate IsJump(op: Opcode)
  {
    op == GOTO || op == IFT || op == IFF
  }

  /** An opcode a chain may end with without a target or symbol: not a jump, not LOCAL, not SYS. */
  predicate Plain(op: Opcode)
  {
    !IsJump(op) && op != LOCAL && op != SYS
  }

  /** Every jump target lies inside the chain. */
  predicate Closed(ops: seq<Op>)
  {
    forall i :: 0 <= i < |ops| && ops[i].target.Some? ==> ops[i].target.value < |ops|
  }

  /** Exactly the jump Ops have targets; only LOAD and STORE carry symbols. */
  predicate Tagged(ops: seq<Op>)
  {
    forall i :: 0 <= i < |ops| ==>
      && (ops[i].target.Some? <==> IsJump(ops[i].opcode))
      && (ops[i].symbol.Some? ==> ops[i].opcode in {LOAD, STORE})
  }

  function ShiftOp(o: Op, k: nat): Op
  {
    if o.target.Some? then o.(target := Some(o.target.value + k)) else o
  }

  /** The chain placed after `k` other Ops: its targets move by `k`. */
  function Shift(ops: seq<Op>, k: nat): (r: seq<Op>)
    ensures |r| == |ops|
    ensures forall i :: 0 <= i < |ops| ==> r[i] == ShiftOp(ops[i], k)
  {
    seq(|ops|, i requires 0 <= i < |ops| => ShiftOp(ops[i], k))
  }

  /** What every chain Build returns satisfies: non-empty, closed, tagged, and free of LOCAL and SYS. */
  predicate Lowered(ops: seq<Op>)
  {
    && |ops| > 0 && Closed(ops) && Tagged(ops)
    && forall i :: 0 <= i < |ops| ==> ops[i].opcode != LOCAL && ops[i].opcode != SYS
  }

  /** `a->Concat(b)` on two built chains. */
  function Join(a: seq<Op>, b: seq<Op>): (r: seq<Op>)
    requires Lowered(a) && Lowered(b)
    ensures Lowered(r)
    ensures |r| == |a| + |b| && r[..|a|] == a
    ensures forall i :: 0 <= i < |b| ==> r[|a| + i] == ShiftOp(b[i], |a|)
  {
    a + Shift(b, |a|)
  }

  /** A built chain followed by Ops that are neither jumps nor symbol Ops nor LOCAL/SYS. */
  function Then(a: seq<Op>, tail: seq<Opcode>, operand: Word := 0): (r: seq<Op>)
    requires Lowered(a) && |tail| > 0
    requires forall i :: 0 <= i < |tail| ==> Plain(tail[i])
    ensures |r| == |a| + |tail| && Lowered(r) && r[..|a|] == a
    ensures forall i :: 0 <= i < |tail| ==> r[|a| + i] == ImmediateOp(tail[i], operand)
  {
    var ops := seq(|tail|, i requires 0 <= i < |tail| => ImmediateOp(tail[i], operand));
    assert forall i :: 0 <= i < |ops| ==> Plain(ops[i].opcode) && ops[i].target.None? && ops[i].symbol.None?;
    a + ops
  }

  /** NT_WHILE: condition, IFF to the trailing NOOP, body, GOTO back to the condition's first Op, NOOP. */
  function WhileOps(a: seq<Op>, c: seq<Op>): (r: seq<Op>)
    requires Lowered(a) && Lowered(c)
    ensures Lowered(r)
  {
    a + [JumpOp(IFF, |a| + |c| + 2)] + Shift(c, |a| + 1) + [JumpOp(GOTO, 0), PlainOp(NOOP)]
  }

  /** NT_DOWHILE: body, condition, IFT back to the body's first Op. */
  function DoWhileOps(a: seq<Op>, b: seq<Op>): (r: seq<Op>)
    requires Lowered(a) && Lowered(b)
    ensures Lowered(r)
  {
    Join(a, b) + [JumpOp(IFT, 0)]
  }

  /** NT_IFTHEN: condition, IFF to the trailing NOOP, then-part, NOOP. */
  function IfOps(a: seq<Op>, c: seq<Op>): (r: seq<Op>)
    requires Lowered(a) && Lowered(c)
    ensures Lowered(r)
  {
    a + [JumpOp(IFF, |a| + |c| + 1)] + Shift(c, |a| + 1) + [PlainOp(NOOP)]
  }

  /** NT_IFTHENELSE: condition, IFF to the else-part, then-part, GOTO to the trailing NOOP, else-part, NOOP. */
  function IfElseOps(a: seq<Op>, c: seq<Op>, e: seq<Op>): (r: seq<Op>)
    requires Lowered(a) && Lowered(c) && Lowered(e)
    ensures Lowered(r)
  {
    a + [JumpOp(IFF, |a| + |c| + 2)] + Shift(c, |a| + 1)
      + [JumpOp(GOTO, |a| + |c| + |e| + 2)] + Shift(e, |a| + |c| + 2) + [PlainOp(NOOP)]
  }

  /** The comparison a relational node applies to the difference of its operands. */
  function Relation(k: NodeType): (op: Opcode)
    ensures Plain(op)
  {
    match k
    case NT_EQUAL => IEQ
    case NT_NEQUAL => INE
    case NT_LESS => ILT
    case NT_LEQUAL => ILE
    case NT_GREATER => IGT
    case _ => IGE
  }

  /** The instruction an arithmetic or boolean node applies to its two operands. */
  function Operator(k: NodeType): (op: Opcode)
    ensures Plain(op)
  {
    match k
    case NT_ADD => IADD
    case NT_SUB => ISUB
    case NT_MUL => IMUL
    case NT_DIV => IDIV
    case NT_MOD => IMOD
    case NT_BOOLAND => IAND
    case _ => IOR
  }

  predicate IsRelational(k: NodeType)
  {
    k in {NT_EQUAL, NT_NEQUAL, NT_LESS, NT_LEQUAL, NT_GREATER, NT_GEQUAL}
  }

  predicate IsOperator(k: NodeType)
  {
    k in {NT_ADD, NT_SUB, NT_MUL, NT_DIV, NT_MOD, NT_BOOLAND, NT_BOOLOR}
  }

  /**
   * Build: the Op chain for a tree. Jump targets are positions in the
   * returned chain.
   */
  function Build(n: Node, t: Tables): (r: seq<Op>)
    requires WellFormed(n, t)
    ensures Lowered(r)
    decreases n, 1
  {
    if n.kind in {NT_ERROR, NT_EMPTY, NT_STMT, NT_EXPR, NT_WHILE, NT_DOWHILE, NT_IFTHEN, NT_IFTHENELSE}
    then BuildStatement(n, t)
    else BuildExpression(n, t)
  }

  function BuildStatement(n: Node, t: Tables): (r: seq<Op>)
    requires WellFormed(n, t)
    requires n.kind in {NT_ERROR, NT_EMPTY, NT_STMT, NT_EXPR, NT_WHILE, NT_DOWHILE, NT_IFTHEN, NT_IFTHENELSE}
    ensures Lowered(r)
    decreases n, 0
  {
    if n.kind == NT_STMT then Join(Build(n.c0, t), Build(n.c1, t))
    else if n.kind == NT_EXPR then Then(Build(n.c0, t), [POP])
    else if n.kind == NT_WHILE then WhileOps(Build(n.c0, t), Build(n.c1, t))
    else if n.kind == NT_DOWHILE then DoWhileOps(Build(n.c0, t), Build(n.c1, t))
    else if n.kind == NT_IFTHEN then IfOps(Build(n.c0, t), Build(n.c1, t))
    else if n.kind == NT_IFTHENELSE then IfElseOps(Build(n.c0, t), Build(n.c1, t), Build(n.c2, t))
    else [PlainOp(NOOP)]
  }

  function BuildExpression(n: Node, t: Tables): (r: seq<Op>)
    requires WellFormed(n, t)
    requires n.kind !in {NT_ERROR, NT_EMPTY, NT_STMT, NT_EXPR, NT_WHILE, NT_DOWHILE, NT_IFTHEN, NT_IFTHENELSE}
    ensures Lowered(r)
    decreases n, 0
  {
    if n.kind == NT_PARAM then Join(Build(n.c0, t), Build(n.c1, t))
    else if n.kind == NT_CALL then Then(Build(n.c0, t), [CALL], Lookup(t.functions, n.symbol.value).value.index)
    else if IsRelational(n.kind) then Then(Join(Build(n.c0, t), Build(n.c1, t)), [ISUB, Relation(n.kind)])
    else if IsOperator(n.kind) then Then(Join(Build(n.c0, t), Build(n.c1, t)), [Operator(n.kind)])
    else if n.kind == NT_ASSIGN then Build(n.c0, t) + [SymbolOp(STORE, Lookup(t.variables, n.symbol.value).value)]
    else if n.kind == NT_IDENT then [SymbolOp(LOAD, Lookup(t.variables, n.symbol.value).value)]
    else [ImmediateOp(PUSH, ToDword(Lookup(t.constants, n.symbol.value).value))]
  }


  // ---------------------------------------------------------------------
  // Assembling an Op chain
  // ---------------------------------------------------------------------

  /** The number of Ops before position `k` that are not NOOPs; each of them becomes two words. */
  function RealBefore(chain: seq<Op>, k: nat): (r: nat)
    requires k <= |chain|
    ensures r <= k
  {
    if k == 0 then 0 else RealBefore(chain, k - 1) + (if chain[k - 1].opcode == NOOP then 0 else 1)
  }

  /** The word offset Assemble gives the Op at position `k` (position |chain| is the forced exit). */
  function Offset(chain: seq<Op>, k: nat): Word
    requires k <= |chain|
  {
    Wrap(2 * RealBefore(chain, k))
  }

  /** The second word of an Op: its symbol's index, else its target's offset, else its operand. */
  function OperandWord(chain: seq<Op>, k: nat): Word
    requires Closed(chain) && k < |chain|
  {
    if chain[k].symbol.Some? then chain[k].symbol.value.index
    else if chain[k].target.Some? then Offset(chain, chain[k].target.value)
    else chain[k].operand
  }

  /** The words Assemble writes for Op `k`: none for a NOOP, else the opcode and the operand word. */
  function EmitOp(chain: seq<Op>, k: nat): (w: seq<Word>)
    requires Closed(chain) && k < |chain|
    ensures |w| == if chain[k].opcode == NOOP then 0 else 2
  {
    if chain[k].opcode == NOOP then [] else [Code(chain[k].opcode), OperandWord(chain, k)]
  }

  /** The words Assemble writes for the first `k` Ops. */
  function Emit(chain: seq<Op>, k: nat): (w: seq<Word>)
    requires Closed(chain) && k <= |chain|
  {
    if k == 0 then [] else Emit(chain, k - 1) + EmitOp(chain, k - 1)
  }

  /** Two words for every Op that is not a NOOP. */
  lemma {:induction false} EmitLength(chain: seq<Op>, k: nat)
    requires Closed(chain) && k <= |chain|
    ensures |Emit(chain, k)| == 2 * RealBefore(chain, k)
  {
    if k > 0 {
      EmitLength(chain, k - 1);
    }
  }

  /** The chain Assemble walks: a LOCAL reserving one slot per variable, then the built chain. */
  function Framed(ops: seq<Op>, varcount: nat): (f: seq<Op>)
    requires Closed(ops)
    ensures |f| == |ops| + 1 && Closed(f)
  {
    [ImmediateOp(LOCAL, Wrap(varcount))] + Shift(ops, 1)
  }

  /** Everything Assemble appends: the framed chain, then SYS SC_EXIT. */
  function Assembled(ops: seq<Op>, varcount: nat): seq<Word>
    requires Closed(ops)
  {
    var f := Framed(ops, varcount);
    Emit(f, |f|) + [Code(SYS), SysValue(SC_EXIT)]
  }

  /** Offsets advance by two words past each Op that is not a NOOP. */
  lemma OffsetStep(chain: seq<Op>, i: nat)
    requires i < |chain|
    ensures Offset(chain, i + 1) == if chain[i].opcode == NOOP then Offset(chain, i) else Wrap(Offset(chain, i) + 2)
  {
    WrapAdd(2 * RealBefore(chain, i), 2);
  }

  lemma {:induction false} EmitPrefix(chain: seq<Op>, k: nat, m: nat)
    requires Closed(chain) && k <= m <= |chain|
    ensures |Emit(chain, k)| <= |Emit(chain, m)|
    ensures Emit(chain, k) == Emit(chain, m)[..|Emit(chain, k)|]
    decreases m - k
  {
    RealMonotone(chain, k, m);
    if k < m {
      EmitPrefix(chain, k, m - 1);
    }
  }

  /** The two words of each Op that is not a NOOP sit at twice the number of such Ops before it. */
  lemma EmitPlacement(chain: seq<Op>, j: nat)
    requires Closed(chain) && j < |chain| && chain[j].opcode != NOOP
    ensures 2 * RealBefore(chain, j) + 1 < |Emit(chain, |chain|)|
    ensures Emit(chain, |chain|)[2 * RealBefore(chain, j)] == Code(chain[j].opcode)
    ensures Emit(chain, |chain|)[2 * RealBefore(chain, j) + 1] == OperandWord(chain, j)
  {
    var all := Emit(chain, |chain|);
    var upto := Emit(chain, j + 1);
    var r := 2 * RealBefore(chain, j);
    EmitLength(chain, j);
    EmitPrefix(chain, j + 1, |chain|);
    assert upto == Emit(chain, j) + [Code(chain[j].opcode), OperandWord(chain, j)];
    assert upto[r] == all[r] && upto[r + 1] == all[r + 1];
  }

  lemma {:induction false} RealMonotone(chain: seq<Op>, k: nat, m: nat)
    requires k <= m <= |chain|
    ensures RealBefore(chain, k) <= RealBefore(chain, m)
    decreases m - k
  {
    if k < m {
      RealMonotone(chain, k, m - 1);
    }
  }

  /** The first position at or after `t` holding an Op that is not a NOOP, or |chain| if there is none. */
  function Landing(chain: seq<Op>, t: nat): (l: nat)
    requires t <= |chain|
    ensures t <= l <= |chain|
    ensures forall i :: t <= i < l ==> chain[i].opcode == NOOP
    ensures l < |chain| ==> chain[l].opcode != NOOP
    ensures RealBefore(chain, l) == RealBefore(chain, t)
    decreases |chain| - t
  {
    if t == |chain| || chain[t].opcode != NOOP then t else Landing(chain, t + 1)
  }

  /** What Assemble appends starts with LOCAL and the variable count and ends with SYS SC_EXIT. */
  lemma AssembledEnds(ops: seq<Op>, varcount: nat)
    requires Closed(ops)
    ensures var f := Framed(ops, varcount);
            var w := Assembled(ops, varcount);
            && |w| == 2 * RealBefore(f, |f|) + 2
            && w[0] == Code(LOCAL) && w[1] == Wrap(varcount)
            && w[|w| - 2] == Code(SYS) && w[|w| - 1] == SysValue(SC_EXIT)
  {
    var f := Framed(ops, varcount);
    var w := Assembled(ops, varcount);
    assert w == Emit(f, |f|) + [Code(SYS), SysValue(SC_EXIT)];
    EmitLength(f, |f|);
    assert f[0] == ImmediateOp(LOCAL, Wrap(varcount));
    EmitPlacement(f, 0);
  }

  /** Every Op of the framed chain that is not a NOOP is assembled at twice the number of such Ops before it. */
  lemma AssembledPlacement(ops: seq<Op>, varcount: nat, j: nat)
    requires Closed(ops)
    requires j < |Framed(ops, varcount)| && Framed(ops, varcount)[j].opcode != NOOP
    ensures var f := Framed(ops, varcount);
            var w := Assembled(ops, varcount);
            && 2 * RealBefore(f, j) + 1 < |w| - 2
            && w[2 * RealBefore(f, j)] == Code(f[j].opcode)
            && w[2 * RealBefore(f, j) + 1] == OperandWord(f, j)
  {
    var f := Framed(ops, varcount);
    assert Assembled(ops, varcount) == Emit(f, |f|) + [Code(SYS), SysValue(SC_EXIT)];
    EmitPlacement(f, j);
  }

  /**
   * A jump's operand is the word offset at which execution continues at its
   * target: the first Op from the target on that is not a NOOP, or the forced
   * exit when only NOOPs follow.
   */
  lemma JumpLandsOnTarget(ops: seq<Op>, varcount: nat, j: nat)
    requires Lowered(ops)
    requires 2 * |ops| + 4 <= WordLimit
    requires j < |Framed(ops, varcount)| && IsJump(Framed(ops, varcount)[j].opcode)
    ensures var f := Framed(ops, varcount);
            var w := Assembled(ops, varcount);
            && f[j].target.Some?
            && var l := Landing(f, f[j].target.value);
               && OperandWord(f, j) == 2 * RealBefore(f, l) < |w|
               && w[OperandWord(f, j)] == (if l < |f| then Code(f[l].opcode) else Code(SYS))
  {
    var f := Framed(ops, varcount);
    assert Assembled(ops, varcount) == Emit(f, |f|) + [Code(SYS), SysValue(SC_EXIT)];
    assert j > 0 && f[j] == ShiftOp(ops[j - 1], 1);
    assert f[j].symbol.None? && f[j].target.Some?;
    var l := Landing(f, f[j].target.value);
    assert OperandWord(f, j) == Wrap(2 * RealBefore(f, l));
    LandingWord(f, l);
  }

  /** The offset of any position lies within the assembled words and needs no wrap-around. */
  lemma LandingBound(f: seq<Op>, l: nat)
    requires Closed(f) && 2 * |f| + 2 <= WordLimit && l <= |f|
    ensures 2 * RealBefore(f, l) <= |Emit(f, |f|)| && 2 * RealBefore(f, l) < WordLimit
    ensures l == |f| ==> 2 * RealBefore(f, l) == |Emit(f, |f|)|
  {
    RealMonotone(f, l, |f|);
    EmitLength(f, |f|);
  }

  /** The word at the offset of a landing Op is its opcode, or the final SYS when the landing is the end. */
  lemma LandingWord(f: seq<Op>, l: nat)
    requires Closed(f) && 2 * |f| + 2 <= WordLimit && l <= |f| && (l < |f| ==> f[l].opcode != NOOP)
    ensures var w := Emit(f, |f|) + [Code(SYS), SysValue(SC_EXIT)];
            && Wrap(2 * RealBefore(f, l)) == 2 * RealBefore(f, l) < |w|
            && w[2 * RealBefore(f, l)] == (if l < |f| then Code(f[l].opcode) else Code(SYS))
  {
    var e := Emit(f, |f|);
    var w := e + [Code(SYS), SysValue(SC_EXIT)];
    var k := 2 * RealBefore(f, l);
    LandingBound(f, l);
    if l < |f| {
      EmitPlacement(f, l);
      assert w[k] == e[k];
    }
  }

  /** The symbols with their table positions as indices. */
  function Indexed(entries: seq<Symbol>): (r: seq<Symbol>)
    ensures |r| == |entries|
    ensures forall j :: 0 <= j < |r| ==> r[j] == entries[j].(index := Wrap(j))
  {
    seq(|entries|, j requires 0 <= j < |entries| => entries[j].(index := Wrap(j)))
  }

  function UnknownMessage(name: string): string
  {
    "reference to unknown function '" + name + "'\n"
  }

  /** A function symbol after binding: its imported function, if the import list has one of that name. */
  function BindSymbol(s: Symbol, imports: map<string, Function>): Symbol
  {
    if s.contents in imports then s.(data := Some(imports[s.contents])) else s
  }

  function Bind(entries: seq<Symbol>, imports: map<string, Function>): (r: seq<Symbol>)
    ensures |r| == |entries|
    ensures forall k :: 0 <= k < |r| ==> r[k] == BindSymbol(entries[k], imports)
  {
    seq(|entries|, k requires 0 <= k < |entries| => BindSymbol(entries[k], imports))
  }

  /** The import of the symbol's name, if there is one. */
  function Import(s: Symbol, imports: map<string, Function>): Option<Function>
  {
    if s.contents in imports then Some(imports[s.contents]) else None
  }

  /** The function table given to the assembly: slot k holds the import for function symbol k, if any. */
  function Pointers(entries: seq<Symbol>, imports: map<string, Function>): (r: seq<Option<Function>>)
    ensures |r| == |entries|
    ensures forall k :: 0 <= k < |r| ==> r[k] == Import(entries[k], imports)
  {
    seq(|entries|, k requires 0 <= k < |entries| => Import(entries[k], imports))
  }

  /** `n` empty function slots. */
  function Empty(n: nat): (r: seq<Option<Function>>)
    ensures |r| == n && forall k :: 0 <= k < n ==> r[k].None?
  {
    seq(n, _ => None)
  }

  /** Binding one more symbol of a partly bound table: the tables, the slots and the errors. */
  lemma BindStep(entries: seq<Symbol>, imports: map<string, Function>, k: nat)
    requires k < |entries|
    ensures (Bind(entries[..k], imports) + entries[k..])[k := BindSymbol(entries[k], imports)]
            == Bind(entries[..k + 1], imports) + entries[k + 1..]
    ensures (Pointers(entries[..k], imports) + Empty(|entries| - k))[k := Import(entries[k], imports)]
            == Pointers(entries[..k + 1], imports) + Empty(|entries| - (k + 1))
    ensures UnknownErrors(entries[..k + 1], imports) == UnknownErrors(entries[..k], imports)
            + (if entries[k].contents in imports then [] else [Diagnostic(UnknownMessage(entries[k].contents), 0)])
  {
    assert entries[..k + 1][..k] == entries[..k];
  }

  /** Imports are looked up by name only, so tables with the same names bind alike and report alike. */
  lemma {:induction false} SameNamesImports(a: seq<Symbol>, b: seq<Symbol>, imports: map<string, Function>)
    requires |a| == |b| && forall i :: 0 <= i < |a| ==> a[i].contents == b[i].contents
    ensures UnknownErrors(a, imports) == UnknownErrors(b, imports)
    ensures Pointers(a, imports) == Pointers(b, imports)
  {
    if a != [] {
      SameNamesImports(a[..|a| - 1], b[..|b| - 1], imports);
    }
  }

  lemma SameNamesDistinct(a: seq<Symbol>, b: seq<Symbol>)
    requires Distinct(a) && |a| == |b| && forall i :: 0 <= i < |a| ==> a[i].contents == b[i].contents
    ensures Distinct(b)
  {
    forall i, j | 0 <= i < j < |b|
      ensures b[i].contents != b[j].contents
    {
      assert a[i].contents != a[j].contents;
    }
  }

  /** One error per function symbol the import list lacks, in table order. */
  function UnknownErrors(entries: seq<Symbol>, imports: map<string, Function>): seq<Diagnostic>
  {
    if entries == [] then []
    else
      var s := entries[|entries| - 1];
      UnknownErrors(entries[..|entries| - 1], imports)
        + (if s.contents in imports then [] else [Diagnostic(UnknownMessage(s.contents), 0)])
  }

  /** Without errors, every function symbol is bound. */
  lemma {:induction false} NoUnknownErrors(entries: seq<Symbol>, imports: map<string, Function>)
    ensures UnknownErrors(entries, imports) == [] <==> forall k :: 0 <= k < |entries| ==> entries[k].contents in imports
  {
    if entries != [] {
      NoUnknownErrors(entries[..|entries| - 1], imports);
    }
  }

  /**
   * After indexing and binding, a call's operand (its symbol's index) selects,
   * in the assembly's function table, the function its parameter count was
   * checked against.
   */
  lemma CallOperandSelectsBoundFunction(entries: seq<Symbol>, imports: map<string, Function>, name: string)
    requires Distinct(entries) && |entries| <= WordLimit
    requires name in imports && Lookup(Bind(Indexed(entries), imports), name).Some?
    ensures var s := Lookup(Bind(Indexed(entries), imports), name).value;
            && s.data == Some(imports[name])
            && s.index < |Pointers(entries, imports)|
            && Pointers(entries, imports)[s.index] == s.data
  {
    var bound := Bind(Indexed(entries), imports);
    LookupSameNames(bound, entries, name);
    var k := Position(bound, name).value;
    assert bound[k].index == Wrap(k) == k;
  }

  /** What the parser hands over: the syntax tree (Null if none was built) and the errors it reported. */
  datatype Parse = Parse(tree: Node, errors: seq<Diagnostic>)

  /** The tables as compilation leaves them before Build: indexed, with functions bound to their imports. */
  function Prepared(t: Tables, imports: map<string, Function>): Tables
  {
    Tables(Indexed(t.variables), t.constants, Bind(Indexed(t.functions), imports))
  }

  /** The tree Build lowers: the parsed tree annotated by the semantic pass over the prepared tables. */
  function Annotated(tree: Node, t: Tables, imports: map<string, Function>): Node
  {
    CheckSemantics(tree, Prepared(t, imports).functions).tree
  }

  /** Every error a compilation of `p` records, in order. */
  function CompileErrors(p: Parse, t: Tables, imports: map<string, Function>): seq<Diagnostic>
  {
    if p.tree == Null then p.errors
    else p.errors + UnknownErrors(t.functions, imports) + CheckSemantics(p.tree, Prepared(t, imports).functions).errors
  }

  /** Build only looks at kinds, links and names: annotating the tree and indexing or binding the tables keeps it well formed. */
  lemma {:induction false} WellFormedPrepared(n: Node, t: Tables, imports: map<string, Function>, fns: seq<Symbol>)
    requires WellFormed(n, t)
    ensures WellFormed(CheckSemantics(n, fns).tree, Prepared(t, imports))
    decreases n
  {
    var p := Prepared(t, imports);
    var r := CheckSemantics(n, fns).tree;
    if Arity(n.kind) >= 1 { WellFormedPrepared(n.c0, t, imports, fns); }
    if Arity(n.kind) >= 2 { WellFormedPrepared(n.c1, t, imports, fns); }
    if Arity(n.kind) >= 3 { WellFormedPrepared(n.c2, t, imports, fns); }
    if n.symbol.Some? {
      LookupSameNames(t.variables, p.variables, n.symbol.value);
      LookupSameNames(t.functions, Indexed(t.functions), n.symbol.value);
      LookupSameNames(Indexed(t.functions), p.functions, n.symbol.value);
    }
    assert r.kind == n.kind && r.symbol == n.symbol;
  }

  /** Op `j` carrying the word offset Assemble gives it. */
  function Placed(f: seq<Op>, j: nat): (p: Op)
    requires j < |f|
    ensures p.opcode == f[j].opcode && p.operand == f[j].operand
    ensures p.target == f[j].target && p.symbol == f[j].symbol
    ensures p.offset == Offset(f, j)
  {
    f[j].(offset := Offset(f, j))
  }

  /** `chain` is `f` with every Op carrying its offset. */
  ghost predicate OffsetsSet(f: seq<Op>, chain: seq<Op>)
  {
    |chain| == |f| && forall j :: 0 <= j < |f| ==> chain[j] == Placed(f, j)
  }

  /** The first loop of Assemble: gives every Op of the chain its word offset. */
  method SetOffsets(f: seq<Op>) returns (chain: seq<Op>)
    ensures OffsetsSet(f, chain)
  {
    chain := [];
    var coffset: Word := 0;
    var i := 0;
    while i < |f|
      invariant 0 <= i <= |f| && |chain| == i
      invariant coffset == Offset(f, i)
      invariant forall j :: 0 <= j < i ==> chain[j] == Placed(f, j)
    {
      var cop := f[i].(offset := coffset);
      assert cop == Placed(f, i);
      chain := chain + [cop];
      OffsetStep(f, i);
      if f[i].opcode != NOOP {
        coffset := Wrap(coffset + 2);
      }
      i := i + 1;
    }
  }

  /** The operand Assemble writes for Op `i`, read from the chain whose offsets are set. */
  function ChainOperand(f: seq<Op>, chain: seq<Op>, i: nat): (w: Word)
    requires Closed(f) && i < |f|
    requires OffsetsSet(f, chain)
    ensures w == OperandWord(f, i)
  {
    var cop := chain[i];
    assert cop == Placed(f, i);
    if cop.symbol.Some? then cop.symbol.value.index
    else if cop.target.Some? then (assert chain[cop.target.value] == Placed(f, cop.target.value); chain[cop.target.value].offset)
    else cop.operand
  }

  /** The second loop of Assemble: two words for every Op that is not a NOOP, operands taken from the offsets. */
  method EmitChain(f: seq<Op>, chain: seq<Op>, asm: Assembly) returns (ok: bool)
    requires Closed(f) && asm.Valid()
    requires OffsetsSet(f, chain)
    modifies asm, asm.bytecode
    ensures asm.Valid() && asm.Words() == old(asm.Words()) + Emit(f, |f|)
    ensures asm.functions == old(asm.functions) && asm.functioncount == old(asm.functioncount)
    ensures asm.bytecode == old(asm.bytecode) || fresh(asm.bytecode)
  {
    ok := true;
    ghost var start := asm.Words();
    ghost var functions, functioncount, buffer := asm.functions, asm.functioncount, asm.bytecode;
    var i := 0;
    assert start + Emit(f, 0) == start;
    while i < |f|
      invariant 0 <= i <= |f|
      invariant asm.Valid() && asm.Words() == start + Emit(f, i)
      invariant asm.functions == functions && asm.functioncount == functioncount
      invariant asm.bytecode == buffer || fresh(asm.bytecode)
    {
      ok := WriteOpOf(f, chain, i, asm, start);
      i := i + 1;
    }
  }

  /** The two loops of Assemble and the final SYS SC_EXIT, over the framed chain. */
  method WriteProgram(f: seq<Op>, asm: Assembly) returns (ok: bool)
    requires Closed(f) && asm.Valid()
    modifies asm, asm.bytecode
    ensures asm.Valid() && ok
    ensures asm.Words() == old(asm.Words()) + (Emit(f, |f|) + [Code(SYS), SysValue(SC_EXIT)])
    ensures asm.functions == old(asm.functions) && asm.functioncount == old(asm.functioncount)
  {
    ghost var words := asm.Words();
    var chain := SetOffsets(f);
    ok := EmitChain(f, chain, asm);
    ok := asm.WriteOp(Code(SYS), SysValue(SC_EXIT));
    AppendAssociates(words, Emit(f, |f|), [Code(SYS), SysValue(SC_EXIT)]);
  }

  /** One step of the second loop of Assemble: the words of Op `i`. */
  method WriteOpOf(f: seq<Op>, chain: seq<Op>, i: nat, asm: Assembly, ghost start: seq<Word>)
    returns (ok: bool)
    requires Closed(f) && i < |f| && asm.Valid()
    requires OffsetsSet(f, chain) && asm.Words() == start + Emit(f, i)
    modifies asm, asm.bytecode
    ensures asm.Valid() && ok && asm.Words() == start + Emit(f, i + 1)
    ensures asm.functions == old(asm.functions) && asm.functioncount == old(asm.functioncount)
    ensures asm.bytecode == old(asm.bytecode) || fresh(asm.bytecode)
  {
    ok := true;
    var cop := chain[i];
    if cop.opcode != NOOP {
      ok := asm.WriteOp(Code(cop.opcode), ChainOperand(f, chain, i));
    }
    AppendAssociates(start, Emit(f, i), EmitOp(f, i));
  }

  // ---------------------------------------------------------------------
  // The compiler object
  // ---------------------------------------------------------------------

  class Compiler {
    const variables: SymbolTable
    const constants: SymbolTable
    const functions: SymbolTable
    /** The syntax tree the parser built (Null if none). */
    var tree: Node
    var errorcount: nat
    /** The errors reported so far; printing them is left out. */
    var diagnostics: seq<Diagnostic>

    ghost predicate Valid()
      reads this, variables, constants, functions
    {
      && variables != constants && variables != functions && constants != functions
      && variables.Valid() && constants.Valid() && functions.Valid()
    }

    function CurrentTables(): Tables
      reads this, variables, constants, functions
    {
      Tables(variables.entries, constants.entries, functions.entries)
    }

    constructor ()
      ensures Valid() && fresh(variables) && fresh(constants) && fresh(functions)
      ensures CurrentTables() == Tables([], [], [])
      ensures tree == Null && errorcount == 0 && diagnostics == []
    {
      variables := new SymbolTable();
      constants := new SymbolTable();
      functions := new SymbolTable();
      tree := Null;
      errorcount := 0;
      diagnostics := [];
    }

    /** Records an error: the count goes up by one. */
    method Error(message: string, line: nat)
      modifies this
      ensures errorcount == old(errorcount) + 1 && diagnostics == old(diagnostics) + [Diagnostic(message, line)]
      ensures tree == old(tree)
    {
      diagnostics := diagnostics + [Diagnostic(message, line)];
      errorcount := errorcount + 1;
    }

    /**
     * Binds each function symbol to the import of the same name and gives the
     * assembly the table of those imports, slot k for function symbol k; a
     * name with no import is reported and leaves its slot empty.
     */
    method MoveFunctions(asm: Assembly, imports: ImportList) returns (ok: bool)
      requires Valid() && asm.Valid()
      modifies this, functions, asm
      ensures Valid() && asm.Valid() && ok
      ensures asm.functions == Pointers(old(functions.entries), imports.functions)
      ensures asm.functioncount == Wrap(|old(functions.entries)|)
      ensures asm.bytecode == old(asm.bytecode) && asm.curpos == old(asm.curpos)
      ensures functions.entries == Bind(old(functions.entries), imports.functions)
      ensures diagnostics == old(diagnostics) + UnknownErrors(old(functions.entries), imports.functions)
      ensures errorcount == old(errorcount) + |UnknownErrors(old(functions.entries), imports.functions)|
      ensures tree == old(tree)
    {
      var entries := functions.entries;
      var m := imports.functions;
      var pointercount := Wrap(|entries|);
      var pointers := new Option<Function>[|entries|](_ => None);
      BindFunctions(m, pointers);
      assert functions.entries == Bind(entries, m);
      SameNamesDistinct(entries, functions.entries);
      assert pointers[..] == Pointers(entries, m);
      ok := asm.SetFunctions(pointers[..], pointercount);
    }

    /** The loop of MoveFunctions: binds function symbol k and fills slot k, or reports the name. */
    method BindFunctions(m: map<string, Function>, pointers: array<Option<Function>>)
      requires pointers.Length == |functions.entries|
      requires forall i :: 0 <= i < pointers.Length ==> pointers[i] == None
      modifies this, functions, pointers
      ensures functions.entries == Bind(old(functions.entries), m)
      ensures pointers[..] == Pointers(old(functions.entries), m)
      ensures diagnostics == old(diagnostics) + UnknownErrors(old(functions.entries), m)
      ensures errorcount == old(errorcount) + |UnknownErrors(old(functions.entries), m)|
      ensures tree == old(tree)
    {
      var entries := functions.entries;
      var k := 0;
      assert pointers[..] == Pointers(entries[..0], m) + Empty(|entries|);
      while k < |entries|
        invariant 0 <= k <= |entries|
        invariant functions.entries == Bind(entries[..k], m) + entries[k..]
        invariant pointers[..] == Pointers(entries[..k], m) + Empty(|entries| - k)
        invariant diagnostics == old(diagnostics) + UnknownErrors(entries[..k], m)
        invariant errorcount == old(errorcount) + |UnknownErrors(entries[..k], m)|
        invariant tree == old(tree)
      {
        BindOne(m, pointers, entries, k, old(diagnostics), old(errorcount));
        k := k + 1;
      }
      assert entries[..k] == entries;
    }

    /** One iteration of BindFunctions: binds function symbol `k` and fills slot `k`, or reports the name. */
    method BindOne(m: map<string, Function>, pointers: array<Option<Function>>, ghost entries: seq<Symbol>, k: nat,
                   ghost diagnostics0: seq<Diagnostic>, ghost errorcount0: nat)
      requires k < |entries| && pointers.Length == |entries|
      requires functions.entries == Bind(entries[..k], m) + entries[k..]
      requires pointers[..] == Pointers(entries[..k], m) + Empty(|entries| - k)
      requires diagnostics == diagnostics0 + UnknownErrors(entries[..k], m)
      requires errorcount == errorcount0 + |UnknownErrors(entries[..k], m)|
      modifies this, functions, pointers
      ensures functions.entries == Bind(entries[..k + 1], m) + entries[k + 1..]
      ensures pointers[..] == Pointers(entries[..k + 1], m) + Empty(|entries| - (k + 1))
      ensures diagnostics == diagnostics0 + UnknownErrors(entries[..k + 1], m)
      ensures errorcount == errorcount0 + |UnknownErrors(entries[..k + 1], m)|
      ensures tree == old(tree)
    {
      BindStep(entries, m, k);
      var name := functions.entries[k].contents;
      assert functions.entries[k] == entries[k];
      if name !in m {
        Error(UnknownMessage(name), 0);
        assert pointers[..] == old(pointers[..])[k := None];
      } else {
        pointers[k] := Some(m[name]);
        functions.entries := functions.entries[k := functions.entries[k].(data := Some(m[name]))];
      }
    }

    /**
     * Lays out the chain behind a LOCAL that reserves one slot per variable,
     * gives each Op its word offset, then writes two words per Op that is not
     * a NOOP and a final SYS SC_EXIT.
     */
    method Assemble(ops: seq<Op>, asm: Assembly) returns (ok: bool)
      requires Closed(ops) && asm.Valid()
      modifies asm, asm.bytecode
      ensures asm.Valid() && ok
      ensures asm.Words() == old(asm.Words()) + Assembled(ops, |variables.entries|)
      ensures asm.functions == old(asm.functions) && asm.functioncount == old(asm.functioncount)
    {
      var f := Framed(ops, |variables.entries|);
      ok := WriteProgram(f, asm);
    }

    /**
     * Compile: `source` is None when the file cannot be opened, otherwise what
     * the parser produced (the parser fills the tables through Get before).
     * Succeeds iff a tree was built and no error was recorded; on success the
     * assembly holds exactly the assembled program and the tables are emptied.
     */
    method Compile(source: Option<Parse>, asm: Assembly, imports: ImportList) returns (ok: bool)
      requires Valid() && asm.Valid()
      requires source.Some? && source.value.tree != Null ==> WellFormed(source.value.tree, CurrentTables())
      modifies this, variables, constants, functions, asm, asm.bytecode
      ensures Valid() && asm.Valid()
      ensures source.None? ==> !ok && unchanged(this, variables, constants, functions, asm)
      ensures source.Some? ==>
        var p := source.value;
        var t := old(CurrentTables());
        && (ok <==> p.tree != Null && CompileErrors(p, t, imports.functions) == [])
        && (!ok ==> diagnostics == CompileErrors(p, t, imports.functions) && errorcount == |diagnostics|)
        && (p.tree == Null ==> unchanged(asm) && asm.Words() == old(asm.Words()) && CurrentTables() == t)
        && (p.tree != Null && !ok ==>
             && asm.Words() == [] && asm.functions == Pointers(t.functions, imports.functions)
             && CurrentTables() == Prepared(t, imports.functions))
        && (ok ==>
             && WellFormed(Annotated(p.tree, t, imports.functions), Prepared(t, imports.functions))
             && asm.Words() == Assembled(Build(Annotated(p.tree, t, imports.functions), Prepared(t, imports.functions)), |t.variables|)
             && asm.functions == Pointers(t.functions, imports.functions)
             && CurrentTables() == Tables([], [], []) && errorcount == 0)
    {
      if source.None? {
        return false;
      }
      ghost var t := CurrentTables();
      var p := source.value;
      errorcount := |p.errors|;
      diagnostics := p.errors;
      tree := p.tree;
      if tree == Null {
        return false;
      }
      ok := Translate(p, t, asm, imports);
    }

    /** Compile once the parser has built a tree: everything after the parser's own errors were recorded. */
    method Translate(p: Parse, ghost t: Tables, asm: Assembly, imports: ImportList) returns (ok: bool)
      requires Valid() && asm.Valid() && CurrentTables() == t
      requires p.tree != Null && tree == p.tree && WellFormed(p.tree, t)
      requires diagnostics == p.errors && errorcount == |p.errors|
      modifies this, variables, constants, functions, asm, asm.bytecode
      ensures Valid() && asm.Valid()
      ensures ok <==> CompileErrors(p, t, imports.functions) == []
      ensures !ok ==> diagnostics == CompileErrors(p, t, imports.functions) && errorcount == |diagnostics|
      ensures !ok ==> asm.Words() == [] && asm.functions == Pointers(t.functions, imports.functions)
      ensures !ok ==> CurrentTables() == Prepared(t, imports.functions)
      ensures ok ==> WellFormed(Annotated(p.tree, t, imports.functions), Prepared(t, imports.functions))
      ensures ok ==> asm.Words() == Assembled(Build(Annotated(p.tree, t, imports.functions), Prepared(t, imports.functions)), |t.variables|)
      ensures ok ==> asm.functions == Pointers(t.functions, imports.functions)
      ensures ok ==> CurrentTables() == Tables([], [], []) && errorcount == 0
    {
      ghost var prepared := Prepared(t, imports.functions);
      ghost var annotated := Annotated(p.tree, t, imports.functions);
      Prepare(asm, imports);
      assert CurrentTables() == prepared;
      Check();
      assert tree == annotated;
      assert diagnostics == CompileErrors(p, t, imports.functions);
      if errorcount > 0 {
        return false;
      }
      ok := true;
      WellFormedPrepared(p.tree, t, imports.functions, prepared.functions);
      ok := Generate(asm);
    }

    /** The semantic pass over the tree: annotates it and records its errors. */
    method Check()
      requires Valid()
      modifies this
      ensures Valid() && CurrentTables() == old(CurrentTables())
      ensures tree == CheckSemantics(old(tree), functions.entries).tree
      ensures diagnostics == old(diagnostics) + CheckSemantics(old(tree), functions.entries).errors
      ensures errorcount == old(errorcount) + |CheckSemantics(old(tree), functions.entries).errors|
    {
      var checked := CheckSemantics(tree, functions.entries);
      tree := checked.tree;
      diagnostics := diagnostics + checked.errors;
      errorcount := errorcount + |checked.errors|;
    }

    /** The steps of Compile between parsing and the semantic pass: index the tables, clear the assembly, bind the functions. */
    method Prepare(asm: Assembly, imports: ImportList)
      requires Valid() && asm.Valid()
      modifies this, variables, functions, asm
      ensures Valid() && asm.Valid() && asm.Words() == [] && asm.bytecode == null
      ensures CurrentTables() == Prepared(old(CurrentTables()), imports.functions)
      ensures asm.functions == Pointers(old(functions.entries), imports.functions)
      ensures diagnostics == old(diagnostics) + UnknownErrors(old(functions.entries), imports.functions)
      ensures errorcount == old(errorcount) + |UnknownErrors(old(functions.entries), imports.functions)|
      ensures tree == old(tree)
    {
      ghost var t := CurrentTables();
      variables.SetIndices();
      functions.SetIndices();
      assert variables.entries == Indexed(t.variables);
      assert functions.entries == Indexed(t.functions);
      SameNamesImports(t.functions, functions.entries, imports.functions);
      asm.Clear();
      var ok := MoveFunctions(asm, imports);
    }

    /** The steps of Compile after a clean semantic pass: lower the tree, assemble it, empty the tables. */
    method Generate(asm: Assembly) returns (ok: bool)
      requires Valid() && asm.Valid() && WellFormed(tree, CurrentTables())
      modifies this, variables, constants, functions, asm, asm.bytecode
      ensures Valid() && asm.Valid() && ok
      ensures asm.Words() == old(asm.Words()) + Assembled(Build(old(tree), old(CurrentTables())), |old(variables.entries)|)
      ensures asm.functions == old(asm.functions)
      ensures CurrentTables() == Tables([], [], []) && errorcount == 0
      ensures diagnostics == old(diagnostics) && tree == old(tree)
    {
      var ops := Build(tree, CurrentTables());
      ok := Assemble(ops, asm);
      constants.Clear();
      variables.Clear();
      functions.Clear();
      errorcount := 0;
    }
  }
}
