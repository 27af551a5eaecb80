/**
 * The text assembler and disassembler (class Assembler). A text is a
 * sequence of lines, each one instruction: a mnemonic, matched without
 * regard to case, and an optional operand. A line `name:` defines a label
 * at the current code position; the operand of a jump names a label and is
 * first written as that label's index, then replaced by the label's
 * position once the whole text has been read.
 *
 * Strings hold one byte per char, and `char` is signed, as with the
 * compilers the source was written for.
 */
module Assembler {
  import opened Words
  import opened Opcodes
  import opened CText
  import Bytecode

  /** The position of a label that is referenced but not (yet) defined: `(dword)-1`. */
  const Unresolved: Word := 0xFFFF_FFFF

  datatype Label = Label(name: string, pos: Word)

  /** No two labels share a name. */
  ghost predicate Distinct(items: seq<Label>)
  {
    forall i, j :: 0 <= i < j < |items| ==> items[i].name != items[j].name
  }

  /** Every label is still unresolved. */
  ghost predicate AllUnresolved(items: seq<Label>)
  {
    forall i :: 0 <= i < |items| ==> items[i].pos == Unresolved
  }

  /** The index of the first label called `name`, or the number of labels when there is none. */
  function LabelIndex(items: seq<Label>, name: string): (r: nat)
    ensures r <= |items|
    ensures r < |items| ==> items[r].name == name
    ensures forall k :: 0 <= k < r ==> items[k].name != name
  {
    if items == [] then 0
    else if items[0].name == name then 0
    else 1 + LabelIndex(items[1..], name)
  }

  /** The labels after AddLabel(name). */
  function Added(items: seq<Label>, name: string): seq<Label>
  {
    if LabelIndex(items, name) < |items| then items else items + [Label(name, Unresolved)]
  }

  /**
   * AddLabel finds an existing label by name, or appends a single unresolved
   * one at the returned index; it never creates a duplicate name, and a second
   * AddLabel of the same name changes nothing.
   */
  lemma AddedLabel(items: seq<Label>, name: string)
    ensures var i := LabelIndex(items, name); var r := Added(items, name);
      && i < |r| && r[i].name == name
      && (i < |items| ==> r == items)
      && (i == |items| ==> r == items + [Label(name, Unresolved)])
      && LabelIndex(r, name) == i && Added(r, name) == r
      && (Distinct(items) ==> Distinct(r))
      && (AllUnresolved(items) ==> AllUnresolved(r))
  {
    var i := LabelIndex(items, name);
    var r := Added(items, name);
    if i == |items| {
      assert r[i].name == name;
      assert forall k :: 0 <= k < i ==> r[k] == items[k];
    }
  }

  /** The label list of the source (LabelVector): a vector of labels that AddLabel extends. */
  class LabelVector {
    var items: seq<Label>

    constructor ()
      ensures items == []
    {
      items := [];
    }
  }

  /** Returns the index of the label called `name`, appending an unresolved label when there is none. */
  method AddLabel(name: string, labels: LabelVector) returns (index: nat)
    modifies labels
    ensures index == LabelIndex(old(labels.items), name)
    ensures labels.items == Added(old(labels.items), name)
  {
    index := 0;
    while index < |labels.items|
      invariant index <= |labels.items|
      invariant forall k :: 0 <= k < index ==> labels.items[k].name != name
    {
      if labels.items[index].name == name {
        return;
      }
      index := index + 1;
    }
    labels.items := labels.items + [Label(name, Unresolved)];
  }

  // ---------------------------------------------------------------------
  // Label resolution

  /**
   * What SetLabels does to the code from instruction word `cp` on: the
   * operand of each jump becomes its label's position, until a jump names an
   * index past the labels or an unresolved label; it then stops, reporting
   * failure, with the earlier jumps already patched.
   */
  function Resolve(words: seq<Word>, labels: seq<Label>, cp: nat): (r: (bool, seq<Word>))
    requires |words| % 2 == 0 && cp % 2 == 0 && cp <= |words|
    ensures |r.1| == |words|
    decreases |words| - cp
  {
    if cp == |words| then (true, words)
    else if !IsJumpOp(words[cp]) then Resolve(words, labels, cp + 2)
    else if words[cp + 1] < |labels| && labels[words[cp + 1]].pos != Unresolved then
      Resolve(words[cp + 1 := labels[words[cp + 1]].pos], labels, cp + 2)
    else (false, words)
  }

  /** Every jump from word `cp` on names a label that exists and is resolved. */
  ghost predicate ResolvableFrom(words: seq<Word>, labels: seq<Label>, cp: nat)
    requires |words| % 2 == 0
  {
    forall k :: cp <= k < |words| && k % 2 == 0 && IsJumpOp(words[k]) ==>
      words[k + 1] < |labels| && labels[words[k + 1]].pos != Unresolved
  }

  /** Word `i` of the code once the operands of the jumps from word `cp` on are replaced by their labels' positions. */
  function PatchedAt(words: seq<Word>, labels: seq<Label>, cp: nat, i: nat): Word
    requires i < |words|
  {
    if cp < i && i % 2 == 1 && IsJumpOp(words[i - 1]) && words[i] < |labels| then labels[words[i]].pos else words[i]
  }

  /** Whether the jumps from `cp` on resolve depends on the instruction at `cp` and those after it. */
  lemma ResolvableStep(words: seq<Word>, labels: seq<Label>, cp: nat)
    requires |words| % 2 == 0 && cp % 2 == 0 && cp < |words|
    ensures ResolvableFrom(words, labels, cp) <==>
      && (IsJumpOp(words[cp]) ==> words[cp + 1] < |labels| && labels[words[cp + 1]].pos != Unresolved)
      && ResolvableFrom(words, labels, cp + 2)
  {
  }

  /** Codes that agree from word `from` on resolve alike from there. */
  lemma ResolvableSuffix(a: seq<Word>, b: seq<Word>, labels: seq<Label>, from: nat)
    requires |a| == |b| && |a| % 2 == 0
    requires forall k :: from <= k < |a| ==> a[k] == b[k]
    ensures ResolvableFrom(a, labels, from) == ResolvableFrom(b, labels, from)
  {
  }

  /** Resolution succeeds exactly when every jump from `cp` on names an existing, resolved label. */
  lemma {:induction false} ResolveSucceeds(words: seq<Word>, labels: seq<Label>, cp: nat)
    requires |words| % 2 == 0 && cp % 2 == 0 && cp <= |words|
    ensures Resolve(words, labels, cp).0 <==> ResolvableFrom(words, labels, cp)
    decreases |words| - cp
  {
    if cp < |words| {
      ResolvableStep(words, labels, cp);
      if !IsJumpOp(words[cp]) {
        ResolveSucceeds(words, labels, cp + 2);
      } else if words[cp + 1] < |labels| && labels[words[cp + 1]].pos != Unresolved {
        var w := words[cp + 1 := labels[words[cp + 1]].pos];
        ResolveSucceeds(w, labels, cp + 2);
        ResolvableSuffix(w, words, labels, cp + 2);
      }
    }
  }

  /** A successful resolution replaces exactly the operands of the jumps from `cp` on. */
  lemma {:induction false} ResolvePatches(words: seq<Word>, labels: seq<Label>, cp: nat)
    requires |words| % 2 == 0 && cp % 2 == 0 && cp <= |words|
    requires Resolve(words, labels, cp).0
    ensures forall i :: 0 <= i < |words| ==> Resolve(words, labels, cp).1[i] == PatchedAt(words, labels, cp, i)
    decreases |words| - cp
  {
    var r := Resolve(words, labels, cp).1;
    if cp == |words| {
      assert r == words;
    } else if !IsJumpOp(words[cp]) {
      ResolvePatches(words, labels, cp + 2);
      assert r == Resolve(words, labels, cp + 2).1;
      forall i | 0 <= i < |words|
        ensures r[i] == PatchedAt(words, labels, cp, i)
      {
        assert PatchedAt(words, labels, cp + 2, i) == PatchedAt(words, labels, cp, i);
      }
    } else {
      var w := words[cp + 1 := labels[words[cp + 1]].pos];
      ResolvePatches(w, labels, cp + 2);
      assert r == Resolve(w, labels, cp + 2).1;
      forall i | 0 <= i < |words|
        ensures r[i] == PatchedAt(words, labels, cp, i)
      {
        if 0 < i && i != cp + 1 && i != cp + 2 {
          assert w[i] == words[i] && w[i - 1] == words[i - 1];
        }
        assert PatchedAt(w, labels, cp + 2, i) == PatchedAt(words, labels, cp, i);
      }
    }
  }

  /** Code without jumps resolves against no labels to itself. */
  lemma ResolveNoLabels(words: seq<Word>)
    requires |words| % 2 == 0
    requires forall k :: 0 <= k < |words| && k % 2 == 0 ==> !IsJumpOp(words[k])
    ensures Resolve(words, [], 0) == (true, words)
  {
    ResolveSucceeds(words, [], 0);
    ResolvePatches(words, [], 0);
    var r := Resolve(words, [], 0).1;
    forall i | 0 <= i < |words|
      ensures r[i] == words[i]
    {
      assert PatchedAt(words, [], 0, i) == words[i];
    }
    assert r == words;
  }

  /**
   * Replaces the operand of every jump with its label's position. Fails on a
   * jump naming a label index past the list or an unresolved label, keeping
   * the jumps patched so far. The label list is emptied in every outcome.
   * The code holds whole instructions: its only caller, Assemble, writes
   * two words per line.
   */
  method SetLabels(asm: Bytecode.Assembly, labels: LabelVector) returns (ok: bool)
    requires asm.Valid() && asm.curpos % 2 == 0
    modifies asm.bytecode, labels
    ensures asm.Valid() && labels.items == []
    ensures (ok, asm.Words()) == Resolve(old(asm.Words()), old(labels.items), 0)
  {
    var code := asm.bytecode;
    var curpos := asm.curpos;
    ghost var original := asm.Words();
    var items := labels.items;
    var cp := 0;
    ok := true;
    while ok && cp < curpos
      invariant cp <= curpos && cp % 2 == 0 && asm.Valid()
      invariant labels.items == items
      invariant ok ==> Resolve(asm.Words(), items, cp) == Resolve(original, items, 0)
      invariant !ok ==> (false, asm.Words()) == Resolve(original, items, 0)
    {
      if IsJumpOp(code[cp]) {
        ok := PatchJump(asm, cp, items);
      }
      if ok {
        cp := cp + 2;
      }
    }
    labels.items := [];
  }

  /**
   * One jump of SetLabels: the operand at `cp + 1` names a label; when that
   * label exists and is resolved, the operand becomes its position.
   */
  method PatchJump(asm: Bytecode.Assembly, cp: nat, labels: seq<Label>) returns (found: bool)
    requires asm.Valid() && cp % 2 == 0 && cp < asm.curpos && asm.curpos % 2 == 0
    requires IsJumpOp(asm.Words()[cp])
    modifies asm.bytecode
    ensures asm.Valid()
    ensures found ==> Resolve(asm.Words(), labels, cp + 2) == Resolve(old(asm.Words()), labels, cp)
    ensures !found ==> asm.Words() == old(asm.Words()) && Resolve(old(asm.Words()), labels, cp) == (false, asm.Words())
  {
    var code := asm.bytecode;
    var index := code[cp + 1];
    found := index < |labels| && labels[index].pos != Unresolved;
    if found {
      ghost var before := asm.Words();
      code[cp + 1] := labels[index].pos;
      assert asm.Words() == before[cp + 1 := labels[index].pos];
    }
  }

  // ---------------------------------------------------------------------
  // Words of a line

  /** A word of a line: where it starts and how many chars it has. */
  datatype Token = Token(start: nat, length: nat)

  /** The end of the run of non-space chars that starts at `j`. */
  function WordEnd(s: string, j: nat): (e: nat)
    requires j <= |s|
    ensures j <= e <= |s|
    ensures forall i :: j <= i < e ==> !IsSpace(s[i])
    ensures e < |s| ==> IsSpace(s[e])
    decreases |s| - j
  {
    if j == |s| || IsSpace(s[j]) then j else WordEnd(s, j + 1)
  }

  /** The first word at or after `p`: the spaces before it are skipped, and it runs up to the next space or the end. */
  function Scan(s: string, p: nat): (r: Option<Token>)
    ensures r.None? <==> forall i :: p <= i < |s| ==> IsSpace(s[i])
    ensures r.Some? ==>
      && p <= r.value.start && 0 < r.value.length && r.value.start + r.value.length <= |s|
      && (forall i :: p <= i < r.value.start ==> IsSpace(s[i]))
      && (forall i :: r.value.start <= i < r.value.start + r.value.length ==> !IsSpace(s[i]))
      && (r.value.start + r.value.length < |s| ==> IsSpace(s[r.value.start + r.value.length]))
  {
    if p >= |s| then None
    else
      var j := SkipSpaces(s, p);
      if j == |s| then None else Some(Token(j, WordEnd(s, j) - j))
  }

  /** A word found where it is: spaces from `p` to `j`, non-spaces from `j` to `e`, then a space or the end. */
  lemma ScanFinds(s: string, p: nat, j: nat, e: nat)
    requires p <= j < e <= |s|
    requires forall i :: p <= i < j ==> IsSpace(s[i])
    requires forall i :: j <= i < e ==> !IsSpace(s[i])
    requires e == |s| || IsSpace(s[e])
    ensures Scan(s, p) == Some(Token(j, e - j))
  {
    var r := Scan(s, p);
    assert !IsSpace(s[j]);
    assert r.Some? && r.value.start == j;
  }

  /**
   * Assembler::NextWord: the length of the next word at or after `p` and the
   * word itself, or -1 when only spaces remain (the word is then left empty,
   * as every caller passes an empty one).
   */
  method NextWord(s: string, p: nat) returns (k: int, w: string)
    ensures Scan(s, p).None? ==> k == -1 && w == ""
    ensures Scan(s, p).Some? ==>
      k == Scan(s, p).value.length && w == s[Scan(s, p).value.start .. Scan(s, p).value.start + k]
  {
    w := "";
    if p >= |s| {
      return -1, w;
    }
    var j := p;
    while j < |s| && IsSpace(s[j])
      invariant p <= j <= |s|
      invariant SkipSpaces(s, j) == SkipSpaces(s, p)
    {
      j := j + 1;
    }
    k := 0;
    while j + k < |s| && !IsSpace(s[j + k])
      invariant 0 <= k && j + k <= |s|
      invariant WordEnd(s, j + k) == WordEnd(s, j)
    {
      k := k + 1;
    }
    if j == |s| {
      k := -1;
    } else {
      w := s[j..j + k];
    }
  }

  // ---------------------------------------------------------------------
  // Operands

  /** A quoted char `(dword)c`: a byte of 128 or more is sign-extended. */
  function CharWord(c: char): (w: Word)
    ensures c as int < 128 ==> w == c as int
  {
    var b := c as int % 256;
    if b < 128 then b else Wrap(b - 256)
  }

  /** The escapes `'\n'`, `'\r'`, `'\b'`, `'\t'`; any other escaped char is 0. */
  function Escape(c: char): (w: Word)
  {
    match c
    case 'n' => 10
    case 'r' => 13
    case 'b' => 8
    case 't' => 9
    case _ => 0
  }

  /**
   * Assembler::StringToOperand. `floatBits` stands for the bits of
   * `(float)atof(s)`, which the model does not compute.
   */
  function StringToOperand(s: string, floatBits: string -> Word): (w: Word)
    ensures s == [] ==> w == 0
  {
    if s == [] then 0
    else if |s| == 3 && s[0] == '\'' && s[2] == '\'' then CharWord(s[1])
    else if |s| == 4 && s[0] == '\'' && s[1] == '\\' && s[3] == '\'' then Escape(s[2])
    else if FloatText(s) then floatBits(s)
    else IntegerOperand(s)
  }

  /** Operand text taken for a float: its last char is `f` or `F`, or it holds a decimal point. */
  predicate FloatText(s: string)
    requires s != []
  {
    ToLower(s[|s| - 1]) == 'f' || '.' in s
  }

  /** An integer operand (`strtol` with base 0); a zero reading is 1 when the text is `true` in any case. */
  function IntegerOperand(s: string): Word
  {
    var i := Strtol(s);
    if i == 0 then (if SameIgnoringCase(s, "true") then 1 else 0) else FromSigned(i)
  }

  /** A decimal rendering is neither a quoted char nor float text. */
  lemma DecimalIsInteger(v: int)
    ensures var s := Decimal(v); s != [] && s[0] != '\'' && !FloatText(s)
  {
    var s := Decimal(v);
    assert '.' !in s;
  }

  /** A decimal operand is read back as the word whose signed value it denotes. */
  lemma OperandDecimal(v: int, floatBits: string -> Word)
    requires SignedMin <= v <= SignedMax
    ensures StringToOperand(Decimal(v), floatBits) == FromSigned(v)
  {
    var s := Decimal(v);
    DecimalIsInteger(v);
    assert StringToOperand(s, floatBits) == IntegerOperand(s);
    StrtolDecimal(v);
    if v == 0 {
      assert s == "0";
    }
  }

  /** A quoted ASCII char is read as its code. */
  lemma OperandChar(c: char, floatBits: string -> Word)
    requires c as int < 128
    ensures StringToOperand(['\'', c, '\''], floatBits) == c as int
  {
  }

  /** An escaped char is read as its control code (0 for an unknown escape). */
  lemma OperandEscape(c: char, floatBits: string -> Word)
    ensures StringToOperand(['\'', '\\', c, '\''], floatBits) == Escape(c)
    ensures Escape(c) == (if c == 'n' then 10 else if c == 'r' then 13 else if c == 'b' then 8 else if c == 't' then 9 else 0)
  {
  }

  /** `true`, in any case, is read as 1. */
  lemma OperandTrue(s: string, floatBits: string -> Word)
    requires SameIgnoringCase(s, "true")
    ensures StringToOperand(s, floatBits) == 1
  {
    SameIgnoringCaseAt(s, "true");
    assert ToLower(s[0]) == 't' && ToLower(s[3]) == 'e';
    assert s[0] != '\'' && s[0] != '0' && s[0] != '-' && s[0] != '+' && !IsSpace(s[0]);
    assert forall i :: 0 <= i < 4 ==> s[i] != '.';
    assert SkipSpaces(s, 0) == 0 && s[0..] == s;
    assert DigitRun(s, 10) == 0;
  }

  /** A hex rendering whose last digit is `f` is taken for a float operand. */
  lemma HexEndingInF(w: Word, floatBits: string -> Word)
    requires w % 16 == 15
    ensures StringToOperand(Hex8(w), floatBits) == floatBits(Hex8(w))
  {
    var s := Hex8(w);
    assert s == "0x" + HexDigits(w / 16, 7) + [DigitChar(15)];
    assert s[|s| - 1] == 'f';
    assert s[0] == '0';
  }

  // ---------------------------------------------------------------------
  // Mnemonics

  /** The mnemonic in row `k` of the opcode table. */
  function Mnemonic(k: nat): string
    requires k < OpCount
  {
    OpTable()[k].name
  }

  /** The first row at or after `j` of the opcode table whose mnemonic matches `op` ignoring case, or OpCount. */
  function MnemonicIndex(op: string, j: nat): (r: nat)
    requires j <= OpCount
    ensures j <= r <= OpCount
    ensures r < OpCount ==> SameIgnoringCase(Mnemonic(r), op)
    ensures forall k :: j <= k < r ==> !SameIgnoringCase(Mnemonic(k), op)
    decreases OpCount - j
  {
    if j == OpCount then OpCount
    else if SameIgnoringCase(Mnemonic(j), op) then j
    else MnemonicIndex(op, j + 1)
  }

  /** The table search in ParseLine: the index of the first row whose mnemonic matches, or the row count. */
  method FindOpcode(op: string) returns (j: nat)
    ensures j == MnemonicIndex(op, 0)
  {
    j := 0;
    while j < OpCount
      invariant j <= OpCount
      invariant MnemonicIndex(op, j) == MnemonicIndex(op, 0)
    {
      if SameIgnoringCase(Mnemonic(j), op) {
        return;
      }
      j := j + 1;
    }
  }

  /** Lower-case letters and digits only. */
  predicate LowerWord(s: string)
  {
    forall i :: 0 <= i < |s| ==> 'a' <= s[i] <= 'z' || '0' <= s[i] <= '9'
  }

  lemma NamesLower(op: Opcode)
    ensures LowerWord(Desc(op).name) && |Desc(op).name| >= 3
  {
  }

  /** The opcode whose mnemonic is `n`, read char by char, if any. */
  function NamedOp(n: string): Option<Opcode>
  {
    if |n| == 3 then Named3(n)
    else if |n| == 4 then Named4(n)
    else if |n| == 5 then Named5(n)
    else None
  }

  /** The opcode whose mnemonic is the three-letter word `n`, if any. */
  function Named3(n: string): Option<Opcode>
    requires |n| == 3
  {
    if n[0] == 's' && n[1] == 'y' && n[2] == 's' then Some(SYS)
    else if n[0] == 'p' && n[1] == 'o' && n[2] == 'p' then Some(POP)
    else if n[0] == 'i' && n[1] == 'f' && n[2] == 't' then Some(IFT)
    else if n[0] == 'i' && n[1] == 'f' && n[2] == 'f' then Some(IFF)
    else if n[0] == 'i' && n[1] == 'e' && n[2] == 'q' then Some(IEQ)
    else if n[0] == 'i' && n[1] == 'n' && n[2] == 'e' then Some(INE)
    else if n[0] == 'i' && n[1] == 'l' && n[2] == 't' then Some(ILT)
    else if n[0] == 'i' && n[1] == 'l' && n[2] == 'e' then Some(ILE)
    else if n[0] == 'i' && n[1] == 'g' && n[2] == 't' then Some(IGT)
    else if n[0] == 'i' && n[1] == 'g' && n[2] == 'e' then Some(IGE)
    else if n[0] == 'i' && n[1] == '2' && n[2] == 'f' then Some(I2F)
    else if n[0] == 'f' && n[1] == '2' && n[2] == 'i' then Some(F2I)
    else if n[0] == 'i' && n[1] == 'o' && n[2] == 'r' then Some(IOR)
    else None
  }

  /** The opcode whose mnemonic is the four-letter word `n`, if any. */
  function Named4(n: string): Option<Opcode>
    requires |n| == 4
  {
    if n[0] == 'n' && n[1] == 'o' && n[2] == 'o' && n[3] == 'p' then Some(NOOP)
    else if n[0] == 'p' && n[1] == 'u' && n[2] == 's' && n[3] == 'h' then Some(PUSH)
    else if n[0] == 'l' && n[1] == 'o' && n[2] == 'a' && n[3] == 'd' then Some(LOAD)
    else if n[0] == 'c' && n[1] == 'a' && n[2] == 'l' && n[3] == 'l' then Some(CALL)
    else if n[0] == 'g' && n[1] == 'o' && n[2] == 't' && n[3] == 'o' then Some(GOTO)
    else if n[0] == 'i' && n[1] == 'a' && n[2] == 'n' && n[3] == 'd' then Some(IAND)
    else if n[0] == 'i' && n[1] == 'a' && n[2] == 'd' && n[3] == 'd' then Some(IADD)
    else if n[0] == 'i' && n[1] == 's' && n[2] == 'u' && n[3] == 'b' then Some(ISUB)
    else if n[0] == 'i' && n[1] == 'm' && n[2] == 'u' && n[3] == 'l' then Some(IMUL)
    else if n[0] == 'i' && n[1] == 'd' && n[2] == 'i' && n[3] == 'v' then Some(IDIV)
    else if n[0] == 'i' && n[1] == 'm' && n[2] == 'o' && n[3] == 'd' then Some(IMOD)
    else if n[0] == 'f' && n[1] == 'a' && n[2] == 'd' && n[3] == 'd' then Some(FADD)
    else if n[0] == 'f' && n[1] == 's' && n[2] == 'u' && n[3] == 'b' then Some(FSUB)
    else if n[0] == 'f' && n[1] == 'm' && n[2] == 'u' && n[3] == 'l' then Some(FMUL)
    else if n[0] == 'f' && n[1] == 'd' && n[2] == 'i' && n[3] == 'v' then Some(FDIV)
    else if n[0] == 'f' && n[1] == 'c' && n[2] == 'm' && n[3] == 'p' then Some(FCMP)
    else None
  }

  /** The opcode whose mnemonic is the five-letter word `n`, if any. */
  function Named5(n: string): Option<Opcode>
    requires |n| == 5
  {
    if n[0] == 's' && n[1] == 't' && n[2] == 'o' && n[3] == 'r' && n[4] == 'e' then Some(STORE)
    else if n[0] == 'l' && n[1] == 'o' && n[2] == 'c' && n[3] == 'a' && n[4] == 'l' then Some(LOCAL)
    else None
  }

  /** Every mnemonic names its own opcode. */
  lemma NamedOpOfName(op: Opcode)
    ensures NamedOp(Desc(op).name) == Some(op)
  {
  }

  /** No two opcodes share a mnemonic. */
  lemma NamesDistinct(a: Opcode, b: Opcode)
    requires Desc(a).name == Desc(b).name
    ensures a == b
  {
    NamedOpOfName(a);
    NamedOpOfName(b);
  }

  /** Two lower-case words that both match `s` ignoring case are the same word. */
  lemma SameLowerWords(a: string, b: string, s: string)
    requires LowerWord(a) && LowerWord(b) && SameIgnoringCase(a, s) && SameIgnoringCase(b, s)
    ensures a == b
  {
    SameIgnoringCaseAt(a, s);
    SameIgnoringCaseAt(b, s);
    assert forall i :: 0 <= i < |a| ==> a[i] == ToLower(a[i]) == ToLower(b[i]) == b[i];
  }

  /** The mnemonic in the row at an opcode's code is that opcode's. */
  lemma MnemonicRow(op: Opcode)
    ensures Mnemonic(Code(op)) == Desc(op).name
  {
    OpTableIndexedByCode(Code(op));
    DecodeCode(op);
  }

  /** Each mnemonic of the table, in any case, is found at its own opcode's row. */
  lemma MnemonicOfName(op: Opcode, s: string)
    requires SameIgnoringCase(Desc(op).name, s)
    ensures MnemonicIndex(s, 0) == Code(op)
  {
    MnemonicRow(op);
    var j := MnemonicIndex(s, 0);
    assert j <= Code(op);
    if j < Code(op) {
      var other := Decode(j).value;
      CodeDecode(j);
      MnemonicRow(other);
      NamesLower(op);
      NamesLower(other);
      SameLowerWords(Desc(other).name, Desc(op).name, s);
      NamesDistinct(other, op);
    }
  }

  // ---------------------------------------------------------------------
  // Lines

  /** How ParseLine reads a line. */
  datatype Line =
    | Blank                                           // empty, only spaces, or a first word `//` or `;`
    | Definition(name: string)                        // `name:`
    | Instruction(row: OpIndex, param: Option<string>)  // a mnemonic's table row and the word found as its operand
    | Malformed                                       // neither a mnemonic nor a label

  /** `find_first_of(":")`: the index of the first colon, or the length when there is none. */
  function FirstColon(s: string): (r: nat)
    ensures r <= |s|
    ensures r < |s| ==> s[r] == ':'
    ensures forall i :: 0 <= i < r ==> s[i] != ':'
  {
    if s == [] then 0
    else if s[0] == ':' then 0
    else 1 + FirstColon(s[1..])
  }

  /** The word a line is scanned for from position `from` on. */
  function WordFrom(line: string, from: nat): Option<string>
  {
    match Scan(line, from)
    case None => None
    case Some(t) => Some(line[t.start .. t.start + t.length])
  }

  /** The first word of a line and its length, if the line has one. */
  function FirstWord(line: string): Option<(string, nat)>
  {
    match Scan(line, 0)
    case None => None
    case Some(t) => Some((line[t.start .. t.start + t.length], t.length))
  }

  /**
   * The reading of a line. The operand is looked for from the position equal
   * to the mnemonic's LENGTH, not from its end, so a line indented by spaces
   * reads part of its own mnemonic as the operand.
   */
  function Classify(line: string): Line
  {
    match FirstWord(line)
    case None => Blank
    case Some((op, k)) => ClassifyWord(op, line, k)
  }

  /** The reading of a line whose first word is `op`, of `k` chars. */
  function ClassifyWord(op: string, line: string, k: nat): Line
  {
    if op == "//" || op == ";" then Blank else RowLine(op, line, k, MnemonicIndex(op, 0))
  }

  /** The reading of a line whose first word `op` was found at table row `j` (OpCount: not a mnemonic). */
  function RowLine(op: string, line: string, k: nat, j: nat): Line
  {
    if j < OpCount then Instruction(j, WordFrom(line, k))
    else if FirstColon(op) == |op| - 1 then Definition(op[..|op| - 1])
    else Malformed
  }


  /** The outcome of assembling lines so far: success, the code words, the labels. */
  datatype Pass = Pass(ok: bool, words: seq<Word>, labels: seq<Label>)

  /**
   * What ParseLine does with a line read as `c`: it appends exactly one
   * instruction, whose opcode is the mnemonic's, or nothing; it fails only on
   * a word that is neither a mnemonic nor a label, or on a missing operand.
   */
  function LineStep(c: Line, words: seq<Word>, labels: seq<Label>, floatBits: string -> Word): (r: Pass)
    ensures c.Instruction? ==> |r.words| == |words| + 2 && r.words[..|words|] == words && r.words[|words|] == c.row
    ensures !c.Instruction? ==> r.words == words
    ensures !r.ok <==> c.Malformed? || (c.Instruction? && !IsJumpOp(c.row) && c.param.None? && OpTable()[c.row].paramcount > 0)
  {
    match c
    case Blank => Pass(true, words, labels)
    case Malformed => Pass(false, words, labels)
    case Definition(name) => Pass(true, words, Defined(labels, name, Wrap(|words|)))
    case Instruction(row, param) => InstructionStep(row, param, words, labels, floatBits)
  }

  /** The labels after `labels.at(AddLabel(name)).pos = pos`. */
  function Defined(labels: seq<Label>, name: string, pos: Word): seq<Label>
  {
    var i := LabelIndex(labels, name);
    var added := Added(labels, name);
    if i < |added| then added[i := added[i].(pos := pos)] else added
  }

  /** A label definition records the current code size as the position of its name, and keeps the names distinct. */
  lemma DefinitionRecordsPosition(c: Line, words: seq<Word>, labels: seq<Label>, floatBits: string -> Word)
    requires c.Definition?
    ensures var r := LineStep(c, words, labels, floatBits); var name := c.name;
      && LabelIndex(r.labels, name) < |r.labels|
      && r.labels[LabelIndex(r.labels, name)].pos == Wrap(|words|)
      && (Distinct(labels) ==> Distinct(r.labels))
  {
    DefinedRecordsPosition(labels, c.name, Wrap(|words|));
  }

  /** Defining a name gives it a label, at the position given, and keeps the names distinct. */
  lemma DefinedRecordsPosition(labels: seq<Label>, name: string, pos: Word)
    ensures var l := Defined(labels, name, pos);
      && LabelIndex(l, name) < |l| && l[LabelIndex(l, name)].pos == pos
      && (Distinct(labels) ==> Distinct(l))
  {
    AddedLabel(labels, name);
    var i := LabelIndex(labels, name);
    var added := Added(labels, name);
    var l := added[i := added[i].(pos := pos)];
    assert forall k :: 0 <= k < |l| ==> l[k].name == added[k].name;
    assert LabelIndex(l, name) == i;
  }

  /** A jump's operand is the index of the label its operand word names (the empty name when it has none). */
  lemma JumpNamesLabel(c: Line, words: seq<Word>, labels: seq<Label>, floatBits: string -> Word)
    requires c.Instruction? && IsJumpOp(c.row)
    requires |labels| < Unresolved
    ensures var r := LineStep(c, words, labels, floatBits); var p := c.param;
      && r.ok && r.words[|words| + 1] < |r.labels|
      && r.labels[r.words[|words| + 1]].name == (if p.Some? then p.value else "")
      && (Distinct(labels) ==> Distinct(r.labels))
  {
    var p := c.param;
    AddedLabel(labels, if p.Some? then p.value else "");
  }

  /** `f` applied to each element, in order. */
  function Map<A, B>(xs: seq<A>, f: A -> B): (ys: seq<B>)
    ensures |ys| == |xs|
  {
    if xs == [] then [] else Map(xs[..|xs| - 1], f) + [f(xs[|xs| - 1])]
  }

  /** Element `i` of a mapped sequence is `f` of element `i`. */
  lemma {:induction false} MapAt<A, B>(xs: seq<A>, f: A -> B, i: nat)
    requires i < |xs|
    ensures Map(xs, f)[i] == f(xs[i])
    decreases |xs|
  {
    var n := |xs| - 1;
    if i < n {
      MapAt(xs[..n], f, i);
    }
  }

  /** How each line of a text reads. */
  function Parsed(lines: seq<string>): (cs: seq<Line>)
    ensures |cs| == |lines|
  {
    Map(lines, Classify)
  }

  /** Classified lines applied in order from no code and no labels, stopping at the first that fails. */
  function Steps(cs: seq<Line>, floatBits: string -> Word): (r: Pass)
    ensures |r.words| % 2 == 0 && |r.words| <= 2 * |cs|
  {
    if cs == [] then Pass(true, [], [])
    else
      var r := Steps(cs[..|cs| - 1], floatBits);
      if !r.ok then r
      else
        var p := LineStep(cs[|cs| - 1], r.words, r.labels, floatBits);
        assert |p.words| % 2 == 0;
        p
  }

  /** The lines up to `n + 1` are those up to `n`, then line `n` when no earlier line failed. */
  lemma StepsExtend(cs: seq<Line>, n: nat, floatBits: string -> Word)
    requires n < |cs|
    ensures var r := Steps(cs[..n], floatBits);
      Steps(cs[..n + 1], floatBits) == if !r.ok then r else LineStep(cs[n], r.words, r.labels, floatBits)
  {
    assert cs[..n + 1][..n] == cs[..n];
  }

  /** Once a line fails, the lines after it are not read. */
  lemma {:induction false} StepsStop(cs: seq<Line>, n: nat, floatBits: string -> Word)
    requires n <= |cs| && !Steps(cs[..n], floatBits).ok
    ensures Steps(cs, floatBits) == Steps(cs[..n], floatBits)
    decreases |cs| - n
  {
    if n < |cs| {
      assert cs[..n + 1][..n] == cs[..n];
      StepsStop(cs, n + 1, floatBits);
    } else {
      assert cs[..n] == cs;
    }
  }

  /** No line adds a second label of a name already listed. */
  lemma LineStepDistinct(c: Line, words: seq<Word>, labels: seq<Label>, floatBits: string -> Word)
    requires Distinct(labels)
    ensures Distinct(LineStep(c, words, labels, floatBits).labels)
  {
    match c
    case Definition(_) => DefinitionRecordsPosition(c, words, labels, floatBits);
    case Instruction(row, p) =>
      if IsJumpOp(row) {
        AddedLabel(labels, if p.Some? then p.value else "");
      }
    case _ =>
  }

  /** The label list never holds two labels of the same name. */
  lemma {:induction false} StepsDistinct(cs: seq<Line>, floatBits: string -> Word)
    ensures Distinct(Steps(cs, floatBits).labels)
  {
    if cs != [] {
      var prefix := cs[..|cs| - 1];
      StepsDistinct(prefix, floatBits);
      var r := Steps(prefix, floatBits);
      if r.ok {
        LineStepDistinct(cs[|cs| - 1], r.words, r.labels, floatBits);
      }
    }
  }

  /** The outcome of Assemble on a text (None: the file could not be opened). */
  function AssembleText(text: Option<seq<string>>, floatBits: string -> Word): (bool, seq<Word>)
  {
    match text
    case None => (false, [])
    case Some(lines) =>
      var p := Steps(Parsed(lines), floatBits);
      if !p.ok then (false, p.words) else Resolve(p.words, p.labels, 0)
  }

  /** Reads one line into the code and the label list. */
  method ParseLine(line: string, asm: Bytecode.Assembly, labels: LabelVector, floatBits: string -> Word) returns (ok: bool)
    requires asm.Valid()
    modifies asm, asm.bytecode, labels
    ensures asm.Valid()
    ensures asm.functions == old(asm.functions) && asm.functioncount == old(asm.functioncount)
    ensures asm.bytecode == old(asm.bytecode) || fresh(asm.bytecode)
    ensures Pass(ok, asm.Words(), labels.items) == LineStep(Classify(line), old(asm.Words()), old(labels.items), floatBits)
  {
    var i, op := NextWord(line, 0);
    assert FirstWord(line) == if i == -1 then None else Some((op, i));
    if i == -1 {
      return true;
    }
    ok := ParseWord(line, op, i, asm, labels, floatBits);
  }

  /** The rest of ParseLine once its first word `op`, of `k` chars, has been read. */
  method ParseWord(line: string, op: string, k: nat, asm: Bytecode.Assembly, labels: LabelVector, floatBits: string -> Word) returns (ok: bool)
    requires asm.Valid()
    modifies asm, asm.bytecode, labels
    ensures asm.Valid()
    ensures asm.functions == old(asm.functions) && asm.functioncount == old(asm.functioncount)
    ensures asm.bytecode == old(asm.bytecode) || fresh(asm.bytecode)
    ensures Pass(ok, asm.Words(), labels.items) == LineStep(ClassifyWord(op, line, k), old(asm.Words()), old(labels.items), floatBits)
  {
    if op == "//" || op == ";" {
      return true;
    }
    var j := FindOpcode(op);
    ok := ParseRow(line, op, k, j, asm, labels, floatBits);
  }

  /** The rest of ParseLine once the table row `j` of the first word `op` has been looked up. */
  method ParseRow(line: string, op: string, k: nat, j: nat, asm: Bytecode.Assembly, labels: LabelVector, floatBits: string -> Word)
    returns (ok: bool)
    requires asm.Valid()
    modifies asm, asm.bytecode, labels
    ensures asm.Valid()
    ensures asm.functions == old(asm.functions) && asm.functioncount == old(asm.functioncount)
    ensures asm.bytecode == old(asm.bytecode) || fresh(asm.bytecode)
    ensures Pass(ok, asm.Words(), labels.items) == LineStep(RowLine(op, line, k, j), old(asm.Words()), old(labels.items), floatBits)
  {
    if j < OpCount {
      ok := ParseInstruction(line, k, j, asm, labels, floatBits);
    } else if FirstColon(op) == |op| - 1 {
      DefineLabel(op[..|op| - 1], Wrap(asm.curpos), labels);
      ok := true;
    } else {
      ok := false;
    }
  }

  /** `labels.at(AddLabel(name, labels)).pos = pos`: defines (or redefines) a label. */
  method DefineLabel(name: string, pos: Word, labels: LabelVector)
    modifies labels
    ensures labels.items == Defined(old(labels.items), name, pos)
  {
    var index := AddLabel(name, labels);
    AddedLabel(old(labels.items), name);
    labels.items := labels.items[index := labels.items[index].(pos := pos)];
  }

  /** The rest of ParseLine once the mnemonic of table row `row` has been read; `i` is the mnemonic's length. */
  method ParseInstruction(line: string, i: nat, row: OpIndex, asm: Bytecode.Assembly, labels: LabelVector, floatBits: string -> Word)
    returns (ok: bool)
    requires asm.Valid()
    modifies asm, asm.bytecode, labels
    ensures asm.Valid()
    ensures asm.functions == old(asm.functions) && asm.functioncount == old(asm.functioncount)
    ensures asm.bytecode == old(asm.bytecode) || fresh(asm.bytecode)
    ensures Pass(ok, asm.Words(), labels.items)
      == InstructionStep(row, WordFrom(line, i), old(asm.Words()), old(labels.items), floatBits)
  {
    ghost var words := asm.Words();
    var code := Code(OpTable()[row].code);
    OpTableCode(row);
    var written := asm.WriteDword(code);
    var operand;
    ok, operand := ReadOperand(line, i, row, labels, floatBits);
    written := asm.WriteDword(operand);
    AppendAssociates(words, [code], [operand]);
    assert [code] + [operand] == [code, operand];
  }

  /** The operand of the instruction of row `row`: a jump's label index, a missing operand's 0, or the converted word. */
  method ReadOperand(line: string, i: nat, row: OpIndex, labels: LabelVector, floatBits: string -> Word)
    returns (ok: bool, operand: Word)
    modifies labels
    ensures Operand(ok, operand, labels.items) == OperandStep(row, WordFrom(line, i), old(labels.items), floatBits)
  {
    var k, param := NextWord(line, i);
    assert WordFrom(line, i) == if k == -1 then None else Some(param);
    ok := true;
    if IsJumpOp(row) {
      var index := AddLabel(param, labels);
      operand := Wrap(index);
    } else if k == -1 {
      operand := 0;
      ok := OpTable()[row].paramcount == 0;
    } else {
      operand := StringToOperand(param, floatBits);
    }
  }

  /** An instruction's operand word, whether it was acceptable, and the label list after reading it. */
  datatype Operand = Operand(ok: bool, value: Word, labels: seq<Label>)

  /**
   * The operand of the instruction of row `row` given its operand word: a
   * jump adds the label it names (the empty name when there is none) and
   * takes its index; another instruction converts its operand word, and
   * without one takes 0, which is an error when the row expects a parameter.
   */
  function OperandStep(row: OpIndex, param: Option<string>, labels: seq<Label>, floatBits: string -> Word): (o: Operand)
  {
    if IsJumpOp(row) then
      var name := if param.Some? then param.value else "";
      Operand(true, Wrap(LabelIndex(labels, name)), Added(labels, name))
    else if param.None? then Operand(OpTable()[row].paramcount == 0, 0, labels)
    else Operand(true, StringToOperand(param.value, floatBits), labels)
  }

  /**
   * What a line holding the instruction of table row `row` with operand word
   * `param` appends: the row's opcode, which is the row number (OpTableCode),
   * then the operand.
   */
  function InstructionStep(row: OpIndex, param: Option<string>, words: seq<Word>, labels: seq<Label>, floatBits: string -> Word): (r: Pass)
    ensures |r.words| == |words| + 2 && r.words[..|words|] == words && r.words[|words|] == row
  {
    var o := OperandStep(row, param, labels, floatBits);
    Pass(o.ok, words + [row as Word, o.value], o.labels)
  }

  // ---------------------------------------------------------------------
  // Assembling a text

  /**
   * Assembles a text into `asm` (None: the file could not be opened). The
   * code is cleared first; each line is parsed in turn, the first line that
   * fails ends the run with the words written so far, and the jumps are
   * resolved once every line has been read.
   */
  method Assemble(text: Option<seq<string>>, asm: Bytecode.Assembly, floatBits: string -> Word) returns (ok: bool)
    modifies asm
    ensures asm.Valid() && asm.functions == [] && asm.functioncount == 0
    ensures (ok, asm.Words()) == AssembleText(text, floatBits)
  {
    asm.Clear();
    var labels := new LabelVector();
    if text.None? {
      return false;
    }
    var lines := text.value;
    ghost var cs := Parsed(lines);
    var n := 0;
    ok := true;
    while ok && n < |lines|
      invariant n <= |lines|
      invariant asm.Valid() && asm.functions == [] && asm.functioncount == 0
      invariant asm.bytecode == null || fresh(asm.bytecode)
      invariant ok ==> Steps(cs[..n], floatBits) == Pass(true, asm.Words(), labels.items)
      invariant !ok ==> Steps(cs, floatBits) == Pass(false, asm.Words(), labels.items)
    {
      ok := ParseLine(lines[n], asm, labels, floatBits);
      MapAt(lines, Classify, n);
      StepsExtend(cs, n, floatBits);
      if ok {
        n := n + 1;
      } else {
        StepsStop(cs, n + 1, floatBits);
      }
    }
    if !ok {
      return;
    }
    assert cs[..n] == cs;
    ok := SetLabels(asm, labels);
  }

  // ---------------------------------------------------------------------
  // Disassembly

  /** Code made of whole instructions whose opcodes all have a row in the table. */
  predicate Decodable(code: seq<Word>)
  {
    |code| % 2 == 0 && forall k :: 0 <= k < |code| && k % 2 == 0 ==> code[k] < OpCount
  }

  /**
   * The operand as the disassembler prints it: a jump's code position as the
   * line number `operand / 2 + 1`, then either `0x%08x` or the signed `%d`.
   */
  function OperandText(opcode: OpIndex, operand: Word, hexops: bool): (t: string)
    ensures IsJumpOp(opcode) && !hexops && operand < 0xFFFF_FFFE ==> t == Decimal(operand / 2 + 1)
    ensures !IsJumpOp(opcode) && !hexops ==> t == Decimal(ToSigned(operand))
    ensures hexops ==> |t| == 10
    ensures hexops ==> t[..2] == "0x" && (forall i :: 2 <= i < |t| ==> DigitValue(t[i], 16).Some?)
                       && Value(t[2..], 16) == (if IsJumpOp(opcode) then operand / 2 + 1 else operand)
    ensures |t| > 0 && forall i :: 0 <= i < |t| ==> !IsSpace(t[i])
  {
    var v := if IsJumpOp(opcode) then operand / 2 + 1 else operand;
    if hexops then Hex8(v) else Decimal(ToSigned(v))
  }

  /** The line printed for one instruction: the mnemonic, then a tab and the operand when the opcode takes one. */
  function Render(opcode: OpIndex, operand: Word, hexops: bool): (line: string)
    ensures var name := OpTable()[opcode].name;
      && |name| <= |line| && line[..|name|] == name
      && (OpTable()[opcode].paramcount == 0 <==> line == name)
      && (OpTable()[opcode].paramcount > 0 ==> line[|name|] == '\t' && line[|name| + 1..] == OperandText(opcode, operand, hexops))
  {
    var desc := OpTable()[opcode];
    if desc.paramcount > 0 then desc.name + "\t" + OperandText(opcode, operand, hexops) else desc.name
  }

  /** The listing of decodable code: one rendered line per instruction. */
  function Listing(code: seq<Word>, hexops: bool): (text: seq<string>)
    requires Decodable(code)
    ensures |text| == |code| / 2
    decreases |code|
  {
    if code == [] then []
    else
      var n := |code| - 2;
      assert forall k :: 0 <= k < n ==> code[..n][k] == code[k];
      Listing(code[..n], hexops) + [Render(code[n], code[n + 1], hexops)]
  }

  /** The body of Disassemble's loop: the line of the instruction at `pos`, which extends the listing by one line. */
  method ListLine(code: seq<Word>, pos: nat, hexops: bool) returns (line: string)
    requires Decodable(code) && pos % 2 == 0 && pos < |code|
    ensures pos + 2 <= |code| && Decodable(code[..pos]) && Decodable(code[..pos + 2])
    ensures Listing(code[..pos + 2], hexops) == Listing(code[..pos], hexops) + [line]
  {
    ListingExtends(code, pos, hexops);
    line := Render(code[pos], code[pos + 1], hexops);
  }

  /** Whole leading instructions of decodable code are decodable. */
  lemma DecodableTake(code: seq<Word>, m: nat)
    requires Decodable(code) && m % 2 == 0 && m <= |code|
    ensures Decodable(code[..m])
  {
    assert forall k :: 0 <= k < m ==> code[..m][k] == code[k];
  }

  /** The listing up to an instruction, followed by that instruction's line, is the listing up to the next. */
  lemma ListingExtends(code: seq<Word>, pos: nat, hexops: bool)
    requires Decodable(code) && pos % 2 == 0 && pos < |code|
    ensures pos + 2 <= |code| && code[pos] < OpCount
    ensures Decodable(code[..pos]) && Decodable(code[..pos + 2])
    ensures Listing(code[..pos + 2], hexops) == Listing(code[..pos], hexops) + [Render(code[pos], code[pos + 1], hexops)]
  {
    assert pos + 2 <= |code|;
    DecodableTake(code, pos);
    DecodableTake(code, pos + 2);
    var pre := code[..pos + 2];
    assert pre[pos] == code[pos] && pre[pos + 1] == code[pos + 1];
    assert pre[..pos] == code[..pos];
  }

  /**
   * Writes the listing of the code (`created`: whether the output file could
   * be created). The source reads words in pairs up to `curpos` and indexes
   * the opcode table with each opcode, so the code must be whole instructions
   * with known opcodes.
   */
  method Disassemble(asm: Bytecode.Assembly, hexops: bool, created: bool) returns (ok: bool, text: seq<string>)
    requires asm.Valid() && Decodable(asm.Words())
    ensures !created ==> !ok && text == []
    ensures created ==> ok && text == Listing(asm.Words(), hexops)
  {
    if !created {
      return false, [];
    }
    var code := asm.Words();
    text := [];
    var pos := 0;
    while pos < |code|
      invariant pos <= |code| && pos % 2 == 0
      invariant Decodable(code[..pos]) && text == Listing(code[..pos], hexops)
    {
      var line := ListLine(code, pos, hexops);
      text := text + [line];
      pos := pos + 2;
    }
    assert code[..pos] == code;
    ok := true;
  }

  // ---------------------------------------------------------------------
  // Reading a listing back

  /** A line whose first `n` chars are non-spaces followed by a space or the end has those chars as its first word. */
  lemma FirstWordIs(line: string, n: nat)
    requires 0 < n <= |line|
    requires forall i :: 0 <= i < n ==> !IsSpace(line[i])
    requires n == |line| || IsSpace(line[n])
    ensures FirstWord(line) == Some((line[..n], n))
  {
    ScanFinds(line, 0, 0, n);
  }

  /** Scanning from `n`, past one space, finds the word that ends the line. */
  lemma LastWordIs(line: string, n: nat, t: string)
    requires n < |line| && IsSpace(line[n]) && line[n + 1..] == t
    requires |t| > 0 && forall i :: 0 <= i < |t| ==> !IsSpace(t[i])
    ensures WordFrom(line, n) == Some(t)
  {
    assert forall i :: n + 1 <= i < |line| ==> line[i] == t[i - (n + 1)];
    ScanFinds(line, n, n + 1, |line|);
    assert line[n + 1 .. |line|] == t;
  }

  /** A mnemonic is one word: no char of it is a space. */
  lemma NameHasNoSpace(opcode: OpIndex)
    ensures var name := OpTable()[opcode].name;
      && |name| >= 3 && forall i :: 0 <= i < |name| ==> !IsSpace(name[i])
  {
    OpTableIndexedByCode(opcode);
    NamesLower(Decode(opcode).value);
  }

  /** A rendered line starts with the mnemonic as its first word. */
  lemma RenderFirstWord(opcode: OpIndex, operand: Word, hexops: bool)
    ensures FirstWord(Render(opcode, operand, hexops)) == Some((OpTable()[opcode].name, |OpTable()[opcode].name|))
  {
    var line := Render(opcode, operand, hexops);
    var name := OpTable()[opcode].name;
    NameHasNoSpace(opcode);
    assert forall i :: 0 <= i < |name| ==> line[i] == line[..|name|][i];
    FirstWordIs(line, |name|);
  }

  /** The operand word a rendered line holds after its mnemonic. */
  lemma RenderOperandWord(opcode: OpIndex, operand: Word, hexops: bool)
    ensures var desc := OpTable()[opcode];
      WordFrom(Render(opcode, operand, hexops), |desc.name|)
        == if desc.paramcount > 0 then Some(OperandText(opcode, operand, hexops)) else None
  {
    var line := Render(opcode, operand, hexops);
    var desc := OpTable()[opcode];
    if desc.paramcount > 0 {
      LastWordIs(line, |desc.name|, OperandText(opcode, operand, hexops));
    }
  }

  /** Every mnemonic is found, by itself, at its own row. */
  lemma MnemonicFound(opcode: OpIndex)
    ensures MnemonicIndex(OpTable()[opcode].name, 0) == opcode
  {
    OpTableIndexedByCode(opcode);
    var op := Decode(opcode).value;
    SameIgnoringCaseAt(Desc(op).name, Desc(op).name);
    MnemonicOfName(op, Desc(op).name);
  }

  /** The instruction a rendered line is read as: the rendered opcode, with the printed operand when there is one. */
  function ListedLine(opcode: OpIndex, operand: Word, hexops: bool): Line
  {
    Instruction(opcode, if OpTable()[opcode].paramcount > 0 then Some(OperandText(opcode, operand, hexops)) else None)
  }

  /** A rendered line reads as the instruction it renders, with its printed operand. */
  lemma RenderClassified(opcode: OpIndex, operand: Word, hexops: bool)
    ensures Classify(Render(opcode, operand, hexops)) == ListedLine(opcode, operand, hexops)
  {
    var name := OpTable()[opcode].name;
    RenderFirstWord(opcode, operand, hexops);
    RenderOperandWord(opcode, operand, hexops);
    NameHasNoSpace(opcode);
    MnemonicFound(opcode);
    assert name != "//" && name != ";";
  }

  /**
   * Code the decimal listing reproduces: no jumps (their labels are not
   * listed) and a zero operand on every opcode that takes no parameter
   * (such operands are not printed).
   */
  predicate Reassemblable(code: seq<Word>)
  {
    Decodable(code) && forall k :: 0 <= k < |code| - 1 && k % 2 == 0 ==> Reproduced(code[k], code[k + 1])
  }

  /** An instruction its decimal line reproduces: not a jump, and operand 0 when the opcode takes no parameter. */
  predicate Reproduced(opcode: OpIndex, operand: Word)
  {
    !IsJumpOp(opcode) && (OpTable()[opcode].paramcount == 0 ==> operand == 0)
  }

  /** Such code holds no jump. */
  lemma ReassemblableHasNoJumps(code: seq<Word>)
    requires Reassemblable(code)
    ensures forall k :: 0 <= k < |code| && k % 2 == 0 ==> !IsJumpOp(code[k])
  {
    forall k | 0 <= k < |code| && k % 2 == 0
      ensures !IsJumpOp(code[k])
    {
      assert k + 1 < |code|;
      assert Reproduced(code[k], code[k + 1]);
    }
  }

  /** Reading the decimal line of such an instruction appends that instruction and defines no label. */
  lemma RenderStep(opcode: OpIndex, operand: Word, words: seq<Word>, floatBits: string -> Word)
    requires Reproduced(opcode, operand)
    ensures LineStep(ListedLine(opcode, operand, false), words, [], floatBits) == Pass(true, words + [opcode as Word, operand], [])
  {
    if OpTable()[opcode].paramcount > 0 {
      OperandDecimal(ToSigned(operand), floatBits);
      FromToSigned(operand);
    }
  }

  /** How the lines of a listing read: each line is the instruction it renders, with its printed operand. */
  function ListedLines(code: seq<Word>, hexops: bool): (cs: seq<Line>)
    requires Decodable(code)
    ensures |cs| == |code| / 2
    decreases |code|
  {
    if code == [] then []
    else
      var n := |code| - 2;
      assert forall k :: 0 <= k < n ==> code[..n][k] == code[k];
      ListedLines(code[..n], hexops) + [ListedLine(code[n], code[n + 1], hexops)]
  }

  /** Dropping the last instruction of decodable code leaves decodable code. */
  lemma DecodablePrefix(code: seq<Word>)
    requires Decodable(code) && code != []
    ensures |code| >= 2 && Decodable(code[..|code| - 2])
    ensures code == code[..|code| - 2] + [code[|code| - 2], code[|code| - 1]]
  {
    var n := |code| - 2;
    assert forall k :: 0 <= k < n ==> code[..n][k] == code[k];
  }

  /** Reading the lines of a listing is reading all but the last, then the last line when no earlier line failed. */
  lemma StepsListedLast(code: seq<Word>, hexops: bool, floatBits: string -> Word)
    requires Decodable(code) && code != []
    ensures |code| >= 2 && Decodable(code[..|code| - 2])
    ensures var n := |code| - 2; var r := Steps(ListedLines(code[..n], hexops), floatBits);
      Steps(ListedLines(code, hexops), floatBits)
        == if !r.ok then r else LineStep(ListedLine(code[n], code[n + 1], hexops), r.words, r.labels, floatBits)
  {
    DecodablePrefix(code);
    var cs := ListedLines(code, hexops);
    assert cs[..|cs| - 1] == ListedLines(code[..|code| - 2], hexops);
  }

  /** Classifying the lines one by one gives ListedLines. */
  lemma {:induction false} ParsedListing(code: seq<Word>, hexops: bool)
    requires Decodable(code)
    ensures Parsed(Listing(code, hexops)) == ListedLines(code, hexops)
    decreases |code|
  {
    if code != [] {
      var n := |code| - 2;
      DecodablePrefix(code);
      ParsedListing(code[..n], hexops);
      RenderClassified(code[n], code[n + 1], hexops);
      var lines := Listing(code, hexops);
      assert lines[..n / 2] == Listing(code[..n], hexops);
    }
  }

  /** Dropping the last instruction of reassemblable code leaves reassemblable code. */
  lemma ReassemblablePrefix(code: seq<Word>)
    requires Reassemblable(code) && |code| >= 2
    ensures Reassemblable(code[..|code| - 2])
  {
    var n := |code| - 2;
    var pre := code[..n];
    DecodablePrefix(code);
    forall k | 0 <= k < n - 1 && k % 2 == 0
      ensures Reproduced(pre[k], pre[k + 1])
    {
      assert pre[k] == code[k] && pre[k + 1] == code[k + 1];
    }
  }

  /** The lines of a decimal listing of such code, read in order, rebuild the code and define no label. */
  lemma {:induction false} ListingSteps(code: seq<Word>, floatBits: string -> Word)
    requires Reassemblable(code)
    ensures Steps(ListedLines(code, false), floatBits) == Pass(true, code, [])
    decreases |code|
  {
    if code != [] {
      var n := |code| - 2;
      var pre := code[..n];
      DecodablePrefix(code);
      ReassemblablePrefix(code);
      assert Reassemblable(pre);
      ListingSteps(pre, floatBits);
      StepsListedLast(code, false, floatBits);
      RenderStep(code[n], code[n + 1], pre, floatBits);
    }
  }

  /** Jump-free code whose parameterless opcodes carry 0 survives a decimal disassembly followed by assembly. */
  lemma ListingReassembles(code: seq<Word>, floatBits: string -> Word)
    requires Reassemblable(code)
    ensures AssembleText(Some(Listing(code, false)), floatBits) == (true, code)
  {
    ParsedListing(code, false);
    ListingSteps(code, floatBits);
    ReassemblableHasNoJumps(code);
    ResolveNoLabels(code);
  }

  /** A jump naming a label that is not resolved makes resolution fail, whatever the rest of the code. */
  lemma UnresolvedJumpFails(words: seq<Word>, labels: seq<Label>, k: nat)
    requires |words| % 2 == 0 && AllUnresolved(labels)
    requires k < |words| && k % 2 == 0 && IsJumpOp(words[k])
    ensures !Resolve(words, labels, 0).0
  {
    ResolveSucceeds(words, labels, 0);
    assert k + 1 < |words|;
    if words[k + 1] < |labels| {
      assert labels[words[k + 1]].pos == Unresolved;
    }
  }

  /** Reading a listed line appends its opcode and an operand, and adds no resolved label. */
  lemma ListedLineStep(opcode: OpIndex, operand: Word, hexops: bool, words: seq<Word>, labels: seq<Label>, floatBits: string -> Word)
    requires AllUnresolved(labels)
    ensures var r := LineStep(ListedLine(opcode, operand, hexops), words, labels, floatBits);
      && AllUnresolved(r.labels) && |r.words| == |words| + 2
      && r.words[..|words|] == words && r.words[|words|] == opcode
  {
    if IsJumpOp(opcode) {
      var c := ListedLine(opcode, operand, hexops);
      AddedLabel(labels, if c.param.Some? then c.param.value else "");
    }
  }

  /**
   * Reading a listing defines no label: the labels its jumps add all stay
   * unresolved, and when every line is read the opcodes are those listed.
   */
  lemma {:induction false} ListingJumpSteps(code: seq<Word>, hexops: bool, floatBits: string -> Word)
    requires Decodable(code)
    ensures var r := Steps(ListedLines(code, hexops), floatBits);
      && AllUnresolved(r.labels)
      && (r.ok ==> |r.words| == |code| && forall k :: 0 <= k < |code| && k % 2 == 0 ==> r.words[k] == code[k])
    decreases |code|
  {
    if code != [] {
      var n := |code| - 2;
      StepsListedLast(code, hexops, floatBits);
      ListingJumpSteps(code[..n], hexops, floatBits);
      var r0 := Steps(ListedLines(code[..n], hexops), floatBits);
      if r0.ok {
        ListedLineStep(code[n], code[n + 1], hexops, r0.words, r0.labels, floatBits);
        OpcodesExtend(code, r0.words, Steps(ListedLines(code, hexops), floatBits).words);
      }
    }
  }

  /** Words that agree with a prefix of `code` at its opcodes, followed by the next opcode and a word, agree with `code` at its opcodes. */
  lemma OpcodesExtend(code: seq<Word>, words: seq<Word>, w: seq<Word>)
    requires |code| % 2 == 0 && |code| >= 2 && |words| == |code| - 2 && |w| == |code|
    requires forall k :: 0 <= k < |words| && k % 2 == 0 ==> words[k] == code[..|words|][k]
    requires w[..|words|] == words && w[|words|] == code[|words|]
    ensures forall k :: 0 <= k < |code| && k % 2 == 0 ==> w[k] == code[k]
  {
    var n := |words|;
    forall k | 0 <= k < |code| && k % 2 == 0
      ensures w[k] == code[k]
    {
      if k < n {
        assert w[k] == w[..n][k] && code[..n][k] == code[k];
      } else {
        assert k == n;
      }
    }
  }

  /** Reading the lines of a listing holding a jump either fails or leaves that jump's label unresolved. */
  lemma ListedJumpUnresolved(code: seq<Word>, hexops: bool, k: nat, floatBits: string -> Word)
    requires Decodable(code) && k < |code| && k % 2 == 0 && IsJumpOp(code[k])
    ensures var r := Steps(ListedLines(code, hexops), floatBits);
      !r.ok || !Resolve(r.words, r.labels, 0).0
  {
    ListingJumpSteps(code, hexops, floatBits);
    var r := Steps(ListedLines(code, hexops), floatBits);
    if r.ok {
      UnresolvedJumpFails(r.words, r.labels, k);
    }
  }

  /** A listing holding a jump does not assemble: it lists no label lines, so the jump's label stays unresolved. */
  lemma ListingWithJumpFails(code: seq<Word>, hexops: bool, k: nat, floatBits: string -> Word)
    requires Decodable(code) && k < |code| && k % 2 == 0 && IsJumpOp(code[k])
    ensures !AssembleText(Some(Listing(code, hexops)), floatBits).0
  {
    ParsedListing(code, hexops);
    ListedJumpUnresolved(code, hexops, k, floatBits);
  }

  /** A line whose first word is `push` reads as PUSH with the word found from position 4 as its operand. */
  lemma ClassifyPush(line: string, p: string)
    requires FirstWord(line) == Some(("push", 4)) && WordFrom(line, 4) == Some(p)
    ensures Classify(line) == Instruction(Code(PUSH), Some(p))
  {
    SameIgnoringCaseAt(Desc(PUSH).name, "push");
    MnemonicOfName(PUSH, "push");
  }

  /** PUSH with an operand word appends PUSH and the converted operand. */
  lemma PushLineStep(p: string, words: seq<Word>, labels: seq<Label>, floatBits: string -> Word)
    ensures LineStep(Instruction(Code(PUSH), Some(p)), words, labels, floatBits)
      == Pass(true, words + [2, StringToOperand(p, floatBits)], labels)
  {
  }

  /** The operand word `sh` holds no digit and is not `true`: it converts to 0. */
  lemma OperandSh(floatBits: string -> Word)
    ensures StringToOperand("sh", floatBits) == 0
  {
    var s := "sh";
    assert s[|s| - 1] == 'h' && '.' !in s;
    assert SkipSpaces(s, 0) == 0 && s[0..] == s;
    assert DigitRun(s, 10) == 0;
    assert !SameIgnoringCase(s, "true");
  }

  /** `push 5` reads as PUSH 5. */
  lemma PlainPush(words: seq<Word>, labels: seq<Label>, floatBits: string -> Word)
    ensures LineStep(Classify("push 5"), words, labels, floatBits) == Pass(true, words + [2, 5], labels)
  {
    var a := "push 5";
    ScanFinds(a, 0, 0, 4);
    assert a[0..4] == "push";
    ScanFinds(a, 4, 5, 6);
    assert a[5..6] == "5";
    ClassifyPush(a, "5");
    PushLineStep("5", words, labels, floatBits);
    OperandDecimal(5, floatBits);
    assert Decimal(5) == "5";
  }

  /** `  push 5` reads as PUSH with the operand word `sh`, that is PUSH 0. */
  lemma IndentedPush(words: seq<Word>, labels: seq<Label>, floatBits: string -> Word)
    ensures LineStep(Classify("  push 5"), words, labels, floatBits) == Pass(true, words + [2, 0], labels)
  {
    var b := "  push 5";
    ScanFinds(b, 0, 2, 6);
    assert b[2..6] == "push";
    ScanFinds(b, 4, 4, 6);
    assert b[4..6] == "sh";
    ClassifyPush(b, "sh");
    PushLineStep("sh", words, labels, floatBits);
    OperandSh(floatBits);
  }
}
