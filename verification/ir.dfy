/**
 * The compiler's intermediate structures: syntax tree nodes, symbols,
 * the Op records code generation produces, the linked form of an Op chain
 * with its append operation, and the table of imported native functions.
 */
module Ir {
  import opened Words
  import opened Opcodes
  import opened Bytecode
  import CText

  /** The kinds of syntax tree node the compiler handles. */
  datatype NodeType =
    | NT_ERROR | NT_STMT | NT_EMPTY | NT_PARAM | NT_CALL | NT_EXPR
    | NT_WHILE | NT_DOWHILE | NT_IFTHEN | NT_IFTHENELSE
    | NT_EQUAL | NT_NEQUAL | NT_LESS | NT_LEQUAL | NT_GREATER | NT_GEQUAL
    | NT_BOOLAND | NT_BOOLOR | NT_ASSIGN
    | NT_ADD | NT_SUB | NT_MUL | NT_DIV | NT_MOD
    | NT_IDENT | NT_INT

  /** The result type the semantic pass assigns to a node. */
  datatype DataType = DT_VOID | DT_BOOL | DT_INT

  /**
   * A syntax tree node: up to three children (`Null` for a null child), the
   * result type, the name of the symbol it refers to, if any, and its source line.
   */
  datatype Node =
    | Null
    | Node(kind: NodeType, c0: Node, c1: Node, c2: Node, rettype: DataType, symbol: Option<string>, line: nat)

  /** `new Node(t, a, b, c)` at source line `line`; children not supplied are null. */
  function NewNode(t: NodeType, line: nat, a: Node := Null, b: Node := Null, c: Node := Null): Node
  {
    Node(t, a, b, c, DT_VOID, None, line)
  }

  /** Every node constructor leaves the result type VOID and the symbol null, and nulls the children it is not given. */
  lemma NodeDefaults(t: NodeType, line: nat, a: Node, b: Node, c: Node)
    ensures var n := NewNode(t, line);
            n.c0 == Null && n.c1 == Null && n.c2 == Null && n.rettype == DT_VOID && n.symbol == None && n.line == line
    ensures var n := NewNode(t, line, a);
            n.c0 == a && n.c1 == Null && n.c2 == Null && n.rettype == DT_VOID && n.symbol == None && n.line == line
    ensures var n := NewNode(t, line, a, b);
            n.c0 == a && n.c1 == b && n.c2 == Null && n.rettype == DT_VOID && n.symbol == None && n.line == line
    ensures var n := NewNode(t, line, a, b, c);
            n.c0 == a && n.c1 == b && n.c2 == c && n.rettype == DT_VOID && n.symbol == None && n.line == line
  {
  }

  /**
   * A named entity of the program: a variable, a constant (its text is the
   * literal) or a function. `index` is its number within its table and
   * `data` the native function bound to a function symbol.
   */
  datatype Symbol = Symbol(contents: string, line: nat, index: Word, data: Option<Function>)

  /** `new Symbol(c, l)`: index 0, nothing bound. */
  function NewSymbol(contents: string, line: nat): (s: Symbol)
    ensures s.contents == contents && s.index == 0 && s.data.None?
  {
    Symbol(contents, line, 0, None)
  }

  /** `Symbol::ToDword`: the decimal value of the text as a 32-bit word (two's complement for negatives). */
  function ToDword(s: Symbol): (w: Word)
    ensures ToSigned(w) == CText.Atoi(s.contents)
  {
    FromSigned(CText.Atoi(s.contents))
  }

  /** A constant written as a decimal literal becomes the word whose signed reading is that number. */
  lemma ToDwordDecimal(v: int, line: nat)
    requires SignedMin <= v <= SignedMax
    ensures ToDword(NewSymbol(CText.Decimal(v), line)) == FromSigned(v)
  {
    CText.AtoiDecimal(v);
  }

  /**
   * One Op of a generated chain. The chain is a sequence; `target` is the
   * position of the jump target in that sequence and `symbol` the symbol
   * whose index becomes the operand. `offset` is the word offset Assemble
   * gives the Op.
   */
  datatype Op = Op(opcode: Opcode, operand: Word, target: Option<nat>, symbol: Option<Symbol>, offset: Word)

  /** `new Op()` and `new Op(oc)`. */
  function PlainOp(oc: Opcode := NOOP): Op
  {
    Op(oc, 0, None, None, 0)
  }

  /** `new Op(oc, o)`. */
  function ImmediateOp(oc: Opcode, o: Word): Op
  {
    Op(oc, o, None, None, 0)
  }

  /** `new Op(oc, t)`: a jump to the Op at position `t`. */
  function JumpOp(oc: Opcode, t: nat): Op
  {
    Op(oc, 0, Some(t), None, 0)
  }

  /** `new Op(oc, s)`: an Op whose operand is the index of `s`. */
  function SymbolOp(oc: Opcode, s: Symbol): Op
  {
    Op(oc, 0, None, Some(s), 0)
  }

  /** Every Op constructor sets offset 0; operand, target and symbol are set only when passed, else 0 / null. */
  lemma OpDefaults(oc: Opcode, o: Word, t: nat, s: Symbol)
    ensures PlainOp() == Op(NOOP, 0, None, None, 0)
    ensures PlainOp(oc).offset == 0 && PlainOp(oc).operand == 0 && PlainOp(oc).target == None && PlainOp(oc).symbol == None
    ensures ImmediateOp(oc, o).offset == 0 && ImmediateOp(oc, o).operand == o
    ensures ImmediateOp(oc, o).target == None && ImmediateOp(oc, o).symbol == None
    ensures JumpOp(oc, t).offset == 0 && JumpOp(oc, t).operand == 0 && JumpOp(oc, t).target == Some(t) && JumpOp(oc, t).symbol == None
    ensures SymbolOp(oc, s).offset == 0 && SymbolOp(oc, s).operand == 0 && SymbolOp(oc, s).target == None
    ensures SymbolOp(oc, s).symbol == Some(s)
  {
  }

  /** An Op object in its linked form: the record and the `next` link. */
  class OpCell {
    var op: Op
    var next: OpCell?

    constructor (op: Op)
      ensures this.op == op && next == null
    {
      this.op := op;
      next := null;
    }

    /**
     * `Op::Concat`: walks to the last cell and links `cell` after it, unless
     * `cell` is met on the way. The walk only meets cells that have a
     * successor, so the last cell itself is not guarded against.
     */
    method Concat(cell: OpCell, ghost nodes: seq<OpCell>) returns (head: OpCell)
      requires IsChain(nodes) && nodes[0] == this
      modifies nodes[|nodes| - 1]
      ensures head == this
      ensures cell in nodes[..|nodes| - 1] ==> nodes[|nodes| - 1].next == null
      ensures cell !in nodes[..|nodes| - 1] ==> nodes[|nodes| - 1].next == cell
      ensures forall i :: 0 <= i < |nodes| - 1 ==> nodes[i].next == nodes[i + 1]
      ensures forall i :: 0 <= i < |nodes| ==> nodes[i].op == old(nodes[i].op)
    {
      var cop := this;
      ghost var i := 0;
      while cop.next != null
        modifies {}
        invariant 0 <= i < |nodes| && cop == nodes[i]
        invariant cell !in nodes[..i]
        invariant cop.next == if i < |nodes| - 1 then nodes[i + 1] else null
        decreases |nodes| - i
      {
        if cop == cell {
          return this;
        }
        cop := cop.next;
        i := i + 1;
      }
      cop.next := cell;
      head := this;
    }
  }

  /** `nodes` is a complete chain: each cell links to the next, the last to null, no cell twice. */
  ghost predicate IsChain(nodes: seq<OpCell>)
    reads set c | c in nodes
  {
    && |nodes| > 0
    && (forall i :: 0 <= i < |nodes| - 1 ==> nodes[i].next == nodes[i + 1])
    && nodes[|nodes| - 1].next == null
    && (forall i, j :: 0 <= i < j < |nodes| ==> nodes[i] != nodes[j])
  }

  /** Linking the head of a disjoint chain after the last cell of another gives one chain. */
  lemma ConcatDisjointChains(nodes: seq<OpCell>, more: seq<OpCell>)
    requires |nodes| > 0 && IsChain(more)
    requires forall i :: 0 <= i < |nodes| - 1 ==> nodes[i].next == nodes[i + 1]
    requires nodes[|nodes| - 1].next == more[0]
    requires forall i, j :: 0 <= i < j < |nodes| ==> nodes[i] != nodes[j]
    requires forall c :: c in nodes ==> c !in more
    ensures IsChain(nodes + more)
  {
    var all := nodes + more;
    forall i, j | 0 <= i < j < |all|
      ensures all[i] != all[j]
    {
      if j >= |nodes| && i < |nodes| {
        assert all[i] in nodes && all[j] in more;
      }
    }
  }

  /**
   * No cell of a chain links to itself. Concat with the chain's own last
   * cell makes exactly such a link, so the result is no longer a chain.
   */
  lemma ChainHasNoSelfLink(nodes: seq<OpCell>)
    requires IsChain(nodes)
    ensures forall i :: 0 <= i < |nodes| ==> nodes[i].next != nodes[i]
  {
    forall i | 0 <= i < |nodes|
      ensures nodes[i].next != nodes[i]
    {
      if i < |nodes| - 1 {
        assert nodes[i].next == nodes[i + 1];
      }
    }
  }

  /** The table of native functions offered to the compiler, keyed by name. */
  class ImportList {
    var functions: map<string, Function>

    constructor ()
      ensures functions == map[]
    {
      functions := map[];
    }

    /** Adds `f` under its name unless the name is taken; reports whether it was added. */
    method Add(f: Function) returns (added: bool)
      modifies this
      ensures added <==> f.name !in old(functions)
      ensures added ==> functions == old(functions)[f.name := f]
      ensures !added ==> functions == old(functions)
    {
      if f.name !in functions {
        functions := functions[f.name := f];
        return true;
      }
      return false;
    }

    /** Adds every function in turn; true iff every one was added. */
    method AddList(fs: seq<Function>) returns (r: bool)
      modifies this
      ensures functions == AddAll(old(functions), fs)
      ensures r <==> AllFresh(old(functions), fs)
    {
      r := true;
      var i := 0;
      while i < |fs|
        invariant 0 <= i <= |fs|
        invariant AddAll(old(functions), fs) == AddAll(functions, fs[i..])
        invariant AllFresh(old(functions), fs) <==> r && AllFresh(functions, fs[i..])
      {
        assert fs[i..][1..] == fs[i + 1..];
        var added := Add(fs[i]);
        if !added {
          r := false;
        }
        i := i + 1;
      }
    }

    /** Empties the table. */
    method Clear()
      modifies this
      ensures functions == map[]
    {
      functions := map[];
    }
  }

  /** The table after adding each of `fs` in turn: a name already present keeps its entry. */
  function AddAll(m: map<string, Function>, fs: seq<Function>): map<string, Function>
    decreases |fs|
  {
    if fs == [] then m
    else if fs[0].name in m then AddAll(m, fs[1..])
    else AddAll(m[fs[0].name := fs[0]], fs[1..])
  }

  /** Every add succeeds: no name of `fs` is in `m`, and no name repeats within `fs`. */
  predicate AllFresh(m: map<string, Function>, fs: seq<Function>)
    decreases |fs|
  {
    fs == [] || (fs[0].name !in m && AllFresh(m[fs[0].name := fs[0]], fs[1..]))
  }

  /** Adding never replaces an entry; the new names are exactly those of `fs`, each bound to its first occurrence. */
  lemma {:induction false} AddAllFirstWins(m: map<string, Function>, fs: seq<Function>)
    ensures forall n :: n in m ==> n in AddAll(m, fs) && AddAll(m, fs)[n] == m[n]
    ensures forall n :: n in AddAll(m, fs) <==> n in m || exists k :: 0 <= k < |fs| && fs[k].name == n
    ensures forall k :: 0 <= k < |fs| && fs[k].name !in m && (forall j :: 0 <= j < k ==> fs[j].name != fs[k].name)
              ==> AddAll(m, fs)[fs[k].name] == fs[k]
    decreases |fs|
  {
    if fs != [] {
      var m' := if fs[0].name in m then m else m[fs[0].name := fs[0]];
      AddAllFirstWins(m', fs[1..]);
      forall n
        ensures n in AddAll(m, fs) <==> n in m || exists k :: 0 <= k < |fs| && fs[k].name == n
      {
        if n in AddAll(m, fs) && n !in m && n != fs[0].name {
          var k :| 0 <= k < |fs[1..]| && fs[1..][k].name == n;
          assert fs[k + 1].name == n;
        }
        if exists k :: 0 <= k < |fs| && fs[k].name == n {
          var k :| 0 <= k < |fs| && fs[k].name == n;
          if k > 0 {
            assert fs[1..][k - 1].name == n;
          }
        }
      }
      forall k | 0 <= k < |fs| && fs[k].name !in m && (forall j :: 0 <= j < k ==> fs[j].name != fs[k].name)
        ensures AddAll(m, fs)[fs[k].name] == fs[k]
      {
        if k > 0 {
          assert fs[1..][k - 1] == fs[k];
          forall j | 0 <= j < k - 1
            ensures fs[1..][j].name != fs[1..][k - 1].name
          {
            assert fs[1..][j] == fs[j + 1];
          }
        }
      }
    }
  }

  /** AddList succeeds exactly when the names of `fs` are new and pairwise distinct. */
  lemma {:induction false} AllFreshDistinct(m: map<string, Function>, fs: seq<Function>)
    ensures AllFresh(m, fs) <==>
      (forall k :: 0 <= k < |fs| ==> fs[k].name !in m) &&
      (forall j, k :: 0 <= j < k < |fs| ==> fs[j].name != fs[k].name)
    decreases |fs|
  {
    if fs != [] {
      AllFreshDistinct(m[fs[0].name := fs[0]], fs[1..]);
      if AllFresh(m, fs) {
        forall j, k | 0 <= j < k < |fs|
          ensures fs[j].name != fs[k].name
        {
          assert fs[1..][k - 1] == fs[k];
          if j > 0 {
            assert fs[1..][j - 1] == fs[j];
          }
        }
      }
      if (forall k :: 0 <= k < |fs| ==> fs[k].name !in m) &&
         (forall j, k :: 0 <= j < k < |fs| ==> fs[j].name != fs[k].name) {
        forall k | 0 <= k < |fs[1..]|
          ensures fs[1..][k].name !in m[fs[0].name := fs[0]]
        {
          assert fs[1..][k] == fs[k + 1];
        }
        forall j, k | 0 <= j < k < |fs[1..]|
          ensures fs[1..][j].name != fs[1..][k].name
        {
          assert fs[1..][j] == fs[j + 1] && fs[1..][k] == fs[k + 1];
        }
      }
    }
  }
}
