# tyro toolchain core in Dafny

tyro is a small toolchain for a C-like teaching language. It has four parts:

- The **compiler** turns a syntax tree into a chain of `Op` records. It then writes the chain out as 32-bit bytecode words: an opcode, then an operand.
- The **assembler** reads a text listing (`push 5`, `goto loop`, `loop:`) into the same bytecode.
- The **disassembler** writes bytecode back out as a listing.
- The **virtual machine** interprets the bytecode on a 256-word stack. It calls imported native functions through a pointer table.

This project models that core in Dafny and proves properties of the model. The modules follow the source files:

| module | file | models |
|---|---|---|
| `Words` | `words.dfy` | 32-bit `dword` values: wrap-around, two's-complement reading, 0/1 booleans |
| `CText` | `ctext.dfy` | the C library calls the core relies on: `isspace`, `tolower`, `stricmp`, `strtol` (base 0), `atoi`, `%d` and `0x%08x` |
| `Opcodes` | `opcodes.dfy` | the `OPCODE` and `SYSCODE` enumerations and the assembler's opcode table |
| `MyComp` | `mycomp.dfy` | the hash and order of the compiler's symbol tables |
| `Bytecode` | `assembly.dfy` | the `Assembly` class: a growing word buffer, the function-pointer table, and the file format of Save and Load |
| `Ir` | `ir.dfy` | syntax-tree nodes, symbols, `Op` records with the `Concat` linked-list walk, and the import list |
| `Compiler` | `compiler.dfy` | symbol tables, the semantic check, lowering (`Build`), offsets and code emission (`Assemble`), function binding (`MoveFunctions`), and `Compile` |
| `Assembler` | `assembler.dfy` | labels and their resolution, word scanning, operand reading, line parsing, `Assemble`, `Disassemble`, and the listing round trip |
| `Machine` | `machine.dfy` | a step semantics of every opcode, the `VirtualMachine` class, its `System` and `Call` handlers, and `Execute` |

## How the model is built

- **State.** Code that changes state step by step is imperative Dafny: `Assembly`, `SymbolTable`, `Compiler`, `ImportList`, `LabelVector`, `OpCell` and `VirtualMachine` are classes whose methods update fields.
  - `Assembly` keeps its bytecode in an `array` that grows in blocks of 1024 words.
  - The machine keeps its stack in a 256-word `array`.
- **Specifications.** Each method is proved against a function on values:
  - `SetLabels` against `Resolve`;
  - `ParseLine` against `LineStep`;
  - the compiler's `Assemble` against `Assembled`;
  - the machine's `Execute` against the step relation `Step` and its iteration `Run`.
- **Bytecode files.** A file is a sequence of words. Whether `fopen` succeeds is a boolean parameter.
- **Floating point.** Floats are not computed:
  - the bits of `atof` in the assembler are the parameter `floatBits`;
  - the float opcodes read the oracle `env.fpu`.
- **Native functions.** A native call is the oracle `env.native`.
- **Output.** The `SYS` print and sleep codes append an `Event` to a trace instead of printing.

Two properties one might expect of the toolchain do not hold for the code as written, and the model follows the code:

- One would expect a disassembled listing to assemble back to the same bytecode. The code keeps this only for code without jumps (`Assembler.ListingReassembles`).
  - The disassembler prints a jump's operand as a line number (Source/Assembler.cpp:265).
  - The assembler reads that number back as a label name that is never defined, so assembly then fails (`Assembler.ListingWithJumpFails`).
  - The claim is therefore false for the program as written. See "Left out".
- One would expect `push 7; push 3; isub; push 0; ine` to leave 1, the result of testing 7 - 3 against 0. In the code, `ine` is a one-operand test of the top word against 0, so the example leaves 0 (see "Findings").

## Model

| member | source | states |
|---|---|---|
| `Words.Wrap` | Source/VirtualMachine.cpp:136-152 | the stored dword is the only value in 0..2^32-1 congruent to the exact result modulo 2^32, and is the exact result when that already fits |
| `Words.WrapAdd` | Source/Compiler.cpp:525-530 | wrapping a running sum after each addition gives the same word as wrapping once at the end |
| `Words.ToSigned` | Source/VirtualMachine.cpp:12 | the signed (`long`) reading of a dword lies in the 32-bit signed range, wraps back to the same word, and is negative exactly when bit 31 is set |
| `Words.FromSigned` | Source/Node.cpp:128 | storing a signed int as a dword is undone by the signed reading |
| `Words.FromToSigned` | Source/Node.cpp:128 | reading a dword as signed and storing it back gives the same dword |
| `Words.Bool` | Source/VirtualMachine.cpp:92-126 | a `? 1 : 0` result is 0 or 1, and 1 exactly when its condition holds |
| `CText.ToLower` | Source/Assembler.cpp:184 | upper-case ASCII letters map to lower-case letters, and every other char is unchanged |
| `CText.SameIgnoringCaseAt` | Source/Assembler.cpp:184 | `stricmp` finds two strings equal exactly when they have the same length and agree at every position after `tolower` |
| `CText.SkipSpaces` | Source/Assembler.cpp:125 | the scan stops at the first non-space at or after the start, or at the end, and passes only spaces |
| `CText.DigitRun` | Source/Assembler.cpp:164 | the digits `strtol` consumes are the longest prefix of characters that are digits in the base |
| `CText.Clamp` | Source/Assembler.cpp:164 | `strtol` saturates: the result is in the 32-bit `long` range and is the exact value when that is in range |
| `CText.Strtol` | Source/Assembler.cpp:164 | `strtol(s, null, 0)` returns a value in the 32-bit `long` range |
| `CText.Atoi` | Source/Node.cpp:127 | `atoi` returns a value in the 32-bit `int` range |
| `CText.DigitChar` | Source/Assembler.cpp:268 | the printed digit reads back as the same digit value in base 16, and in base 10 (and base 8 when below 8) |
| `CText.Digits` | Source/Assembler.cpp:268 | an unsigned number prints as a non-empty run of decimal digits, with a leading `0` exactly for zero |
| `CText.Decimal` | Source/Assembler.cpp:268 | `%d` prints a non-empty word without spaces, made of digits and minus signs, ending in a digit and starting with `-` exactly when the value is negative |
| `CText.Hex8` | Source/Assembler.cpp:268 | `0x%08x` prints exactly ten characters, `0x` first, with no spaces, and the eight digits read back in base 16 give the word |
| `CText.HexValue` | Source/Assembler.cpp:268 | `count` hex digits of a number below 16^`count` read back in base 16 give that number |
| `CText.ValueDigits` | Source/Assembler.cpp:268 | reading the printed digits of `n` back in base 10 gives `n` |
| `CText.StrtolDecimal` | Source/Assembler.cpp:164 | `strtol` of the `%d` text of any signed 32-bit value gives that value back |
| `CText.AtoiDecimal` | Source/Node.cpp:127 | `atoi` of the decimal text of any signed 32-bit value gives that value back |
| `Opcodes.Code` | Source/VirtualMachine.h:7-59 | every opcode is numbered below the opcode count, 31 |
| `Opcodes.Decode` | Source/VirtualMachine.cpp:198-199 | a word names an opcode exactly when it is below 31; every other word takes the `default` branch |
| `Opcodes.DecodeCode` | Source/VirtualMachine.h:7-59 | decoding an opcode's number gives the opcode back |
| `Opcodes.CodeDecode` | Source/VirtualMachine.h:7-59 | a word below 31 is the number of the opcode it decodes to |
| `Opcodes.JumpOpsAreBranches` | Source/Assembler.cpp:114-117 | `IsJumpOp` holds exactly for the numbers of `GOTO`, `IFT` and `IFF` |
| `Opcodes.SysValue` | Source/VirtualMachine.h:61-68 | the system codes are 0 to 4 |
| `Opcodes.Desc` | Source/Assembler.cpp:12-58 | each opcode's row names that opcode and takes at most one parameter |
| `Opcodes.OpTable` | Source/Assembler.cpp:12-58 | the table has exactly one row per opcode |
| `Opcodes.OpTableIndexedByCode` | Source/Assembler.cpp:13 | `opcodes[i].code == i`: row `i` is the row of the opcode numbered `i` |
| `Opcodes.OpTableCode` | Source/Assembler.cpp:13 | every row's opcode is numbered by the row's index |
| `Opcodes.DescAt` | Source/Assembler.cpp:13 | indexing the table by an opcode's number gives that opcode's row |
| `Opcodes.JumpOpsTakeParameter` | Source/Assembler.cpp:27-30 | every jump opcode has a row, and that row takes one parameter |
| `MyComp.Hash` | Source/MyComp.h:14-22 | the empty string hashes to 0 |
| `MyComp.HashIsWrappedSum` | Source/MyComp.h:14-22 | the hash is the sum of the string's unsigned bytes modulo 2^32 |
| `MyComp.SumPermutation` | Source/MyComp.h:19-20 | two strings made of the same bytes have the same byte sum |
| `MyComp.HashPermutation` | Source/MyComp.h:14-22 | two strings made of the same bytes in any order hash alike, so anagrams share a bucket |
| `MyComp.LessIrreflexive` | Source/MyComp.h:24-27 | no string is ordered before itself |
| `MyComp.LessAsymmetric` | Source/MyComp.h:24-27 | two strings are never each ordered before the other |
| `MyComp.LessTransitive` | Source/MyComp.h:24-27 | the order is transitive |
| `MyComp.LessTotal` | Source/MyComp.h:24-27 | of two different strings one is ordered before the other |
| `Bytecode.Capacity` | Source/Assembly.cpp:30-45 | after `n` writes the buffer has room for more than `n` words and is a whole number of 1024-word blocks |
| `Bytecode.CapacityStep` | Source/Assembly.cpp:37-42 | a write grows the buffer by one block exactly when the new count is a multiple of 1024, and otherwise keeps its size |
| `Bytecode.Encode` | Source/Assembly.cpp:66-74 | a saved file is the word count followed by the words |
| `Bytecode.Decode` | Source/Assembly.cpp:76-89 | loading reads a count, then that many words; an empty file loads as empty code; a file too short for its count has no decoded value (the words it lacks are never read), and `Load` still succeeds on it; a long enough one decodes to its words |
| `Bytecode.DecodeEncode` | Source/Assembly.cpp:66-89 | loading a saved file gives the saved words back, whatever follows them in the file |
| `Bytecode.EncodeDecode` | Source/Assembly.cpp:66-89 | saving the words of a loaded file reproduces the part of the file that was read |
| `Bytecode.Assembly.Words` | Source/Assembly.cpp:55-63 | the code read from the buffer holds exactly `curpos` words |
| `Bytecode.Assembly.constructor` | Source/Assembly.cpp:10-12 | a new assembly holds no code, no buffer and no functions |
| `Bytecode.Assembly.Clear` | Source/Assembly.cpp:14-21 | clearing frees the buffer and the function table and leaves no code |
| `Bytecode.Assembly.WriteDword` | Source/Assembly.cpp:30-45 | appends exactly one word and keeps every earlier word across a regrowth; when the count reaches a multiple of 1024 the buffer becomes count + 1024 words, and otherwise an existing buffer is kept (the first write after construction or `Clear` allocates one block) |
| `Bytecode.Assembly.WriteOp` | Source/Assembly.cpp:47-52 | appends the opcode and then the operand and changes nothing else |
| `Bytecode.Assembly.GetSize` | Source/Assembly.cpp:60-63 | the size is the number of words written |
| `Bytecode.Assembly.SetFunctions` | Source/Assembly.cpp:91-97 | replaces the function table and count and leaves the code alone |
| `Bytecode.Assembly.Save` | Source/Assembly.cpp:66-74 | fails exactly when the file cannot be created; otherwise writes the count and the words, which load back as the same code |
| `Bytecode.Assembly.LoadAsWritten` | Source/Assembly.cpp:76-89 | as written: the function table is emptied, the buffer gets exactly `count` words and holds the file's words, so it has no room for the next write |
| `Bytecode.Assembly.Load` | Source/Assembly.cpp:76-89 | empties the function table; fails exactly when the file cannot be opened, clearing the code; otherwise the code is the words the file holds, and the assembly stays writable |
| `Ir.NodeDefaults` | Source/Node.cpp:8-31 | each of the four constructors (no child, one, two and three children) sets the children it is given, leaves the rest null, and sets a void type, no symbol and the current line |
| `Ir.NewSymbol` | Source/Node.cpp:120-122 | a new symbol keeps its text, has index 0 and no bound function |
| `Ir.ToDword` | Source/Node.cpp:125-129 | the word's signed reading is `atoi` of the symbol's text |
| `Ir.ToDwordDecimal` | Source/Node.cpp:125-129 | an integer literal written in decimal becomes its two's-complement word |
| `Ir.OpDefaults` | Source/Node.cpp:37-60 | each `Op` constructor sets offset 0 and only the opcode, operand, target or symbol it is given |
| `Ir.OpCell.constructor` | Source/Node.cpp:37-60 | a new cell holds its op and has no successor |
| `Ir.OpCell.Concat` | Source/Node.cpp:67-79 | returns the head; links the cell after the chain's last cell unless the cell is already one of the earlier cells; changes no other link and no op |
| `Ir.ConcatDisjointChains` | Source/Node.cpp:67-79 | linking a chain's last cell to the head of a disjoint chain gives one well-formed chain |
| `Ir.ChainHasNoSelfLink` | Source/Node.cpp:70-75 | no cell of a chain is its own successor, so the walk always moves on |
| `Ir.ImportList.Add` | Source/Node.cpp:83-95 | adds the function exactly when its name is not yet taken, and otherwise leaves the table unchanged |
| `Ir.ImportList.AddList` | Source/Node.cpp:97-105 | adds every function in order; returns true exactly when every name was free when it was reached |
| `Ir.ImportList.Clear` | Source/Node.cpp:107-111 | the table becomes empty |
| `Ir.AddAllFirstWins` | Source/Node.cpp:97-105 | names already present keep their function; the result holds exactly the old names and the list's names; a new name maps to its first occurrence |
| `Ir.AllFreshDistinct` | Source/Node.cpp:97-105 | `AddList` returns true exactly when no listed name was present and the listed names are pairwise distinct |
| `Compiler.Lookup` | Source/Compiler.cpp:41-50 | `find` returns a symbol with the name, and none exactly when no entry has the name |
| `Compiler.Position` | Source/Compiler.cpp:41-50 | the position found is the first entry with the name, and is absent exactly when `find` fails |
| `Compiler.LookupSameNames` | Source/Compiler.cpp:124-128 | renumbering or binding the entries, which keeps their names, does not change what a name finds |
| `Compiler.SymbolTable.Get` | Source/Compiler.cpp:39-77 | an existing name returns its symbol and leaves the table alone; a new name appends exactly one fresh symbol; names stay distinct and the name now finds the result |
| `Compiler.SymbolTable.SetIndices` | Source/Compiler.cpp:105 | numbers the entries 0, 1, 2, ... in iteration order and changes nothing else |
| `Compiler.SymbolTable.Clear` | Source/Compiler.cpp:104 | the table becomes empty |
| `Compiler.DistinctAppend` | Source/Compiler.cpp:43-47 | inserting a name that is not found keeps the names distinct |
| `Compiler.CountParams` | Source/Compiler.cpp:172-186 | the count is the number of non-empty parameters along the `NT_PARAM` spine |
| `Compiler.CheckFunctionSemantics` | Source/Compiler.cpp:165-196 | an unbound call fails silently; otherwise it succeeds exactly when the argument count equals the function's, and a mismatch reports one error at the call's line |
| `Compiler.CheckSemantics` | Source/Compiler.cpp:199-284 | keeps the tree's shape; every node gets the result type of its kind: void for statements, bool for comparisons and logic, int for `+ - * /`, assignment, names and literals, while `%`, calls, parameters and error nodes keep their type; no error exactly when every bound call's argument count matches |
| `Compiler.CheckSemanticsIdempotent` | Source/Compiler.cpp:199-284 | checking an already checked tree changes nothing and reports the same errors |
| `Compiler.Join` | Source/Compiler.cpp:296-299 | concatenating two chains keeps the first, shifts the second's jump targets by the first's length, and keeps every target inside the chain |
| `Compiler.Then` | Source/Compiler.cpp:319-324 | appending plain ops keeps the chain and puts exactly those ops at its end |
| `Compiler.WhileOps` | Source/Compiler.cpp:326-339 | the `while` chain's jumps stay inside the chain |
| `Compiler.DoWhileOps` | Source/Compiler.cpp:341-348 | the `do-while` chain's jumps stay inside the chain |
| `Compiler.IfOps` | Source/Compiler.cpp:350-361 | the `if` chain's jumps stay inside the chain |
| `Compiler.IfElseOps` | Source/Compiler.cpp:363-379 | the `if-else` chain's jumps stay inside the chain |
| `Compiler.Relation` | Source/Compiler.cpp:381-445 | each comparison lowers to a test opcode that takes no jump target |
| `Compiler.Operator` | Source/Compiler.cpp:472-505 | each arithmetic node lowers to an opcode that takes no jump target |
| `Compiler.Build` | Source/Compiler.cpp:286-516 | lowering any well-formed tree gives a chain whose every jump target lies inside the chain |
| `Compiler.BuildStatement` | Source/Compiler.cpp:292-379 | lowering a statement gives a chain whose jump targets lie inside it |
| `Compiler.BuildExpression` | Source/Compiler.cpp:381-512 | lowering an expression gives a chain whose jump targets lie inside it |
| `Compiler.RealBefore` | Source/Compiler.cpp:525-530 | the number of real (non-`NOOP`) ops before a point never exceeds the ops before it |
| `Compiler.Framed` | Source/Compiler.cpp:521-522 | the `LOCAL` op put first adds exactly one op and keeps every jump inside the chain |
| `Compiler.EmitLength` | Source/Compiler.cpp:532-542 | the code for a prefix of the chain is two words per real op |
| `Compiler.EmitPrefix` | Source/Compiler.cpp:532-542 | the code for a shorter prefix is a prefix of the code for a longer one |
| `Compiler.EmitPlacement` | Source/Compiler.cpp:532-542 | real op `j` is emitted at word `2 * (real ops before j)`: its opcode, then its operand |
| `Compiler.Landing` | Source/Compiler.cpp:525-530 | a jump to a `NOOP` lands on the first real op at or after it (or the end), and the offset is the same |
| `Compiler.AssembledEnds` | Source/Compiler.cpp:518-547 | the program is `LOCAL varcount` first and `SYS SC_EXIT` last, with two words per real op between |
| `Compiler.AssembledPlacement` | Source/Compiler.cpp:532-542 | every real op of the framed chain sits at its offset, before the final exit |
| `Compiler.JumpLandsOnTarget` | Source/Compiler.cpp:524-538 | every jump's operand is a code position within the program, holding the opcode of the first real op at or after its target, or the final `SYS` |
| `Compiler.Indexed` | Source/Compiler.cpp:105 | numbering sets entry `j`'s index to `j` and changes nothing else |
| `Compiler.Bind` | Source/Compiler.cpp:555-567 | each function symbol is bound to the import of the same name when there is one |
| `Compiler.Pointers` | Source/Compiler.cpp:549-569 | slot `k` of the pointer table holds the import named by function symbol `k` |
| `Compiler.BindStep` | Source/Compiler.cpp:555-567 | one loop step binds entry `k`, fills slot `k`, and adds an error exactly when the name is unknown |
| `Compiler.SameNamesImports` | Source/Compiler.cpp:124-135 | the pointer table and the unknown-name errors depend only on the names, not on indices or bindings |
| `Compiler.NoUnknownErrors` | Source/Compiler.cpp:556-560 | binding reports no error exactly when every function name is imported |
| `Compiler.CallOperandSelectsBoundFunction` | Source/Compiler.cpp:312-317 | a call's operand is its symbol's index, and that slot of the pointer table holds the very function the symbol is bound to |
| `Compiler.WellFormedPrepared` | Source/Compiler.cpp:124-139 | numbering, binding and checking keep a well-formed tree well-formed |
| `Compiler.Placed` | Source/Compiler.cpp:525-530 | the offset pass keeps each op and sets its offset to two words per real op before it |
| `Compiler.SetOffsets` | Source/Compiler.cpp:525-530 | after the loop every op carries its offset |
| `Compiler.ChainOperand` | Source/Compiler.cpp:535-540 | the emitted operand is the symbol's index, else the target's offset, else the op's own operand |
| `Compiler.EmitChain` | Source/Compiler.cpp:532-542 | the loop appends exactly the code for the whole chain |
| `Compiler.WriteProgram` | Source/Compiler.cpp:532-545 | appends the chain's code followed by `SYS SC_EXIT` |
| `Compiler.Compiler.constructor` | Source/Compiler.cpp:30-32 | a new compiler has no tree, no errors and empty tables |
| `Compiler.Compiler.Error` | Source/Compiler.cpp:79-96 | adds one to the error count and records the message at its line |
| `Compiler.Compiler.MoveFunctions` | Source/Compiler.cpp:549-572 | binds each function symbol, fills its pointer slot, gives the assembly a table as long as the function table, and reports one error per unknown name |
| `Compiler.Compiler.BindFunctions` | Source/Compiler.cpp:554-567 | the loop binds every entry, fills every slot and reports exactly the unknown names |
| `Compiler.Compiler.Assemble` | Source/Compiler.cpp:518-547 | appends exactly the framed program: `LOCAL` with the variable count, the chain's code at the computed offsets, then `SYS SC_EXIT` |
| `Compiler.Compiler.Compile` | Source/Compiler.cpp:107-163 | fails without touching anything when the file cannot be opened; fails, leaving the assembly untouched, when there is no tree; otherwise succeeds exactly when there were no parse, binding or argument-count errors; on failure the errors are reported and the assembly holds only the pointer table; on success it holds the lowered program and the tables are emptied |
| `Compiler.Compiler.Translate` | Source/Compiler.cpp:124-162 | from a parsed tree: succeeds exactly when no error was reported; on failure the code is empty, the pointer table is set and the tables are numbered and bound; on success the code is the lowered, checked tree and the tables are emptied |
| `Compiler.Compiler.Check` | Source/Compiler.cpp:139 | replaces the tree by its checked form and reports its errors |
| `Compiler.Compiler.Prepare` | Source/Compiler.cpp:124-135 | numbers the symbols, clears the assembly and binds the functions |
| `Compiler.Compiler.Generate` | Source/Compiler.cpp:143-162 | appends the program for the tree and empties the tables |
| `Assembler.LabelIndex` | Source/Assembler.cpp:70-81 | the index is that of the first label with the name, or the length when there is none |
| `Assembler.AddedLabel` | Source/Assembler.cpp:70-81 | the name is found at the index; a new name is appended unresolved; adding again changes nothing; distinct names stay distinct |
| `Assembler.AddLabel` | Source/Assembler.cpp:70-81 | returns the first label with the name, appending an unresolved label when there is none |
| `Assembler.Resolve` | Source/Assembler.cpp:83-112 | resolution never changes the code's length |
| `Assembler.ResolveSucceeds` | Source/Assembler.cpp:83-112 | resolution succeeds exactly when every jump names an existing, defined label |
| `Assembler.ResolvePatches` | Source/Assembler.cpp:89-94 | on success every jump's operand becomes its label's position, and no other word changes |
| `Assembler.ResolveNoLabels` | Source/Assembler.cpp:83-112 | code without jumps resolves unchanged |
| `Assembler.UnresolvedJumpFails` | Source/Assembler.cpp:93-99 | when no label is defined, any jump makes resolution fail |
| `Assembler.SetLabels` | Source/Assembler.cpp:83-112 | patches the code in place as resolution does, reports its verdict, and always empties the labels |
| `Assembler.PatchJump` | Source/Assembler.cpp:90-106 | patches one jump when its label is defined, and otherwise leaves the code and reports failure |
| `Assembler.WordEnd` | Source/Assembler.cpp:126 | the word ends at the first space after it, or at the end of the line |
| `Assembler.Scan` | Source/Assembler.cpp:119-131 | finds no word exactly when only spaces remain; otherwise the word is maximal and preceded only by spaces |
| `Assembler.ScanFinds` | Source/Assembler.cpp:119-131 | a maximal word after spaces is the word found |
| `Assembler.NextWord` | Source/Assembler.cpp:119-131 | returns -1 when only spaces remain; otherwise the word found and its length |
| `Assembler.CharWord` | Source/Assembler.cpp:140-142 | a quoted ASCII character is its code |
| `Assembler.StringToOperand` | Source/Assembler.cpp:133-168 | an empty operand is 0 |
| `Assembler.OperandDecimal` | Source/Assembler.cpp:163-167 | a decimal operand gives the two's-complement word of its value |
| `Assembler.OperandChar` | Source/Assembler.cpp:140-142 | `'c'` gives the code of `c` |
| `Assembler.OperandEscape` | Source/Assembler.cpp:143-153 | `'\n'`, `'\r'`, `'\b'` and `'\t'` give 10, 13, 8 and 9; any other escape gives 0 |
| `Assembler.OperandTrue` | Source/Assembler.cpp:166 | `true`, in any case, gives 1 |
| `Assembler.HexEndingInF` | Source/Assembler.cpp:157-160 | a `0x%08x` operand whose last digit is `f` is read as a float, not as hexadecimal |
| `Assembler.MnemonicIndex` | Source/Assembler.cpp:180-188 | the row found is the first whose name equals the word ignoring case, or the count when there is none |
| `Assembler.FindOpcode` | Source/Assembler.cpp:180-188 | the loop finds that row |
| `Assembler.NamesLower` | Source/Assembler.cpp:12-58 | every mnemonic is a lower-case word of at least three letters |
| `Assembler.NamesDistinct` | Source/Assembler.cpp:12-58 | no two opcodes share a mnemonic |
| `Assembler.MnemonicOfName` | Source/Assembler.cpp:183-187 | any casing of a mnemonic finds its own opcode |
| `Assembler.FirstColon` | Source/Assembler.cpp:193 | `find_first_of(":")` gives the first colon, or the length when there is none |
| `Assembler.LineStep` | Source/Assembler.cpp:170-220 | an instruction line appends exactly its opcode and one operand word; other lines append nothing; a line fails exactly when it is neither a mnemonic nor a label, or a non-jump lacks a required operand |
| `Assembler.DefinitionRecordsPosition` | Source/Assembler.cpp:191-196 | a label line records the current code position for that name and keeps names distinct |
| `Assembler.JumpNamesLabel` | Source/Assembler.cpp:207-209 | a jump's operand word is the index of a label named by its operand text (empty when there is none) |
| `Assembler.InstructionStep` | Source/Assembler.cpp:200-217 | an instruction appends its opcode, then one operand word, and keeps the earlier words |
| `Assembler.Steps` | Source/Assembler.cpp:233-244 | assembling lines writes two words at most per line, in whole instructions |
| `Assembler.StepsExtend` | Source/Assembler.cpp:233-244 | one more line applies one more line step, unless an earlier line failed |
| `Assembler.StepsStop` | Source/Assembler.cpp:238-242 | after a failing line, later lines are never read |
| `Assembler.StepsDistinct` | Source/Assembler.cpp:70-81 | the label list never holds a name twice |
| `Assembler.ParseLine` | Source/Assembler.cpp:170-220 | reading a line changes the code and the labels exactly as its line step says |
| `Assembler.DefineLabel` | Source/Assembler.cpp:195 | the label with the name gets the position, added first when missing |
| `Assembler.ParseInstruction` | Source/Assembler.cpp:200-217 | writes the opcode and the operand of the instruction step |
| `Assembler.ReadOperand` | Source/Assembler.cpp:204-216 | reads the operand word: a label index for a jump, 0 when it is missing, else the converted text |
| `Assembler.Assemble` | Source/Assembler.cpp:222-250 | fails when the file cannot be opened; otherwise reads the lines in order and stops at the first bad line without resolving labels; otherwise resolves them, leaving exactly the resulting code |
| `Assembler.OperandText` | Source/Assembler.cpp:265-268 | a jump prints `operand / 2 + 1`; other operands print as signed `%d` or as `0x` and eight hex digits whose base-16 value is the printed number; the text is a non-empty word |
| `Assembler.Render` | Source/Assembler.cpp:267-270 | a line is the mnemonic alone exactly when the opcode takes no parameter, and otherwise the mnemonic, a tab and the operand text |
| `Assembler.Listing` | Source/Assembler.cpp:262-271 | the listing has one line per instruction |
| `Assembler.ListingExtends` | Source/Assembler.cpp:262-271 | the listing of one more instruction is the old listing plus that instruction's line |
| `Assembler.ListLine` | Source/Assembler.cpp:263-270 | the line produced for the instruction at `pos` extends the listing by exactly that line |
| `Assembler.Disassemble` | Source/Assembler.cpp:252-275 | fails when the file cannot be created; otherwise writes exactly the listing, one line per instruction |
| `Assembler.MnemonicFound` | Source/Assembler.cpp:183-187 | every printed mnemonic is found again at its own row |
| `Assembler.RenderClassified` | Source/Assembler.cpp:170-220 | a printed line reads back as its instruction with its operand text |
| `Assembler.ParsedListing` | Source/Assembler.cpp:233-237 | reading the listing line by line gives back each instruction |
| `Assembler.ListingSteps` | Source/Assembler.cpp:233-244 | reading a jump-free listing in decimal rewrites the same words and defines no labels |
| `Assembler.ListingReassembles` | Source/Assembler.cpp:222-275 | assembling the decimal listing of jump-free code gives that code back |
| `Assembler.ListingJumpSteps` | Source/Assembler.cpp:233-244 | reading a listing leaves every label undefined, and on success rewrites every opcode in its place |
| `Assembler.ListedJumpUnresolved` | Source/Assembler.cpp:205-209 | a listed jump names a label that is never defined |
| `Assembler.ListingWithJumpFails` | Source/Assembler.cpp:265-266 | assembling the listing of any code with a jump fails |
| `Assembler.ClassifyPush` | Source/Assembler.cpp:173-205 | a `push` line reads as a push of the word found after the mnemonic's length |
| `Assembler.PushLineStep` | Source/Assembler.cpp:202-215 | a push writes opcode 2 and the converted operand |
| `Assembler.OperandSh` | Source/Assembler.cpp:163-166 | the operand text `sh` converts to 0 |
| `Assembler.PlainPush` | Source/Assembler.cpp:170-220 | `push 5` assembles to `2, 5` |
| `Assembler.IndentedPush` | Source/Assembler.cpp:205 | `  push 5` assembles to `2, 0`: the operand scan restarts inside the mnemonic and reads `sh` |
| `Machine.TruncRem` | Source/VirtualMachine.cpp:163 | C's `%`: smaller in size than the divisor, zero or with the dividend's sign, and `a == (a / b) * b + a % b` with truncating division |
| `Machine.TruncDivRem` | Source/VirtualMachine.cpp:163 | the truncating remainder is the remainder of the magnitudes, signed like the dividend |
| `Machine.Product` | Source/VirtualMachine.cpp:148-151 | the product word is congruent to the exact product modulo 2^32 |
| `Machine.SignedRem` | Source/VirtualMachine.cpp:160-164 | `IMOD` is the truncating remainder of the signed readings |
| `Machine.LogicalResults` | Source/VirtualMachine.cpp:92-102 | `IAND` gives 1 exactly when both words are non-zero, and `IOR` when either is |
| `Machine.WrappingResults` | Source/VirtualMachine.cpp:136-152 | `IADD`, `ISUB` and `IMUL` give the exact result modulo 2^32 |
| `Machine.SignedRemainder` | Source/VirtualMachine.cpp:160-164 | `IMOD`'s signed result is the truncating remainder whenever it is defined |
| `Machine.UnsignedDivision` | Source/VirtualMachine.cpp:154-158 | `IDIV` is the unsigned floor quotient |
| `Machine.Compare` | Source/VirtualMachine.cpp:104-126 | every test gives 0 or 1 |
| `Machine.SystemStep` | Source/VirtualMachine.cpp:206-229 | a system call keeps the machine invariant |
| `Machine.CallStep` | Source/VirtualMachine.cpp:231-267 | a native call keeps the machine invariant |
| `Machine.ExecControl` | Source/VirtualMachine.cpp:44-90 | the control opcodes keep the machine invariant whenever they are defined |
| `Machine.ExecMemory` | Source/VirtualMachine.cpp:64-78 | `PUSH`, `POP`, `LOAD` and `STORE` keep the machine invariant |
| `Machine.ExecUnary` | Source/VirtualMachine.cpp:104-134 | the one-word opcodes keep the machine invariant |
| `Machine.ExecBinary` | Source/VirtualMachine.cpp:92-196 | the two-word opcodes keep the machine invariant |
| `Machine.Exec` | Source/VirtualMachine.cpp:43-200 | every defined instruction keeps the machine invariant |
| `Machine.Step` | Source/VirtualMachine.cpp:39-200 | every defined fetch-and-execute step keeps the machine invariant |
| `Machine.Run` | Source/VirtualMachine.cpp:39-201 | a run that never reaches undefined behaviour ends in a state meeting the invariant |
| `Machine.EnsureExit` | Source/VirtualMachine.cpp:26-29 | the code ends with `SYS SC_EXIT`; it is unchanged exactly when it already did, and otherwise that pair is appended |
| `Machine.Start` | Source/VirtualMachine.cpp:31-34 | the start state meets the machine invariant |
| `Machine.HaltsExactlyOnExit` | Source/VirtualMachine.cpp:39-60 | a step halts exactly on `SYS SC_EXIT`, moving past it, and faults exactly on an opcode outside the table |
| `Machine.PushStep` | Source/VirtualMachine.cpp:64-66 | `PUSH` raises the stack by one, stores the operand on top and changes no other slot |
| `Machine.PopStep` | Source/VirtualMachine.cpp:68-70 | `POP` lowers the stack by one and changes no slot |
| `Machine.LocalStep` | Source/VirtualMachine.cpp:47-53 | `LOCAL n` puts the locals at the current top and reserves `n` slots |
| `Machine.LoadStep` | Source/VirtualMachine.cpp:72-74 | `LOAD k` pushes local `k` |
| `Machine.StoreStep` | Source/VirtualMachine.cpp:76-78 | `STORE k` copies the top into local `k` and does not pop |
| `Machine.BranchStep` | Source/VirtualMachine.cpp:80-90 | `GOTO` jumps to its operand; `IFT` and `IFF` pop and jump when the top is 1, or 0 for `IFF`, and otherwise fall through |
| `Machine.CompareStep` | Source/VirtualMachine.cpp:104-126 | a test replaces the top by 0 or 1 without popping |
| `Machine.BinaryStep` | Source/VirtualMachine.cpp:136-164 | integer arithmetic pops the right operand and replaces the left by the result |
| `Machine.SystemCallStep` | Source/VirtualMachine.cpp:59-62 | codes 1 to 4 pop one word and emit one event; any other code except exit changes nothing but the instruction pointer |
| `Machine.CallInstructionStep` | Source/VirtualMachine.cpp:55-57 | `CALL` pops the parameters, pushes one result (0 for a function without a result) and changes no other slot |
| `Machine.IneExamplePrefix` | Source/VirtualMachine.cpp:64-66 | after five steps the example leaves 4 above the base and a pushed 0 on top |
| `Machine.PushZeroIneExample` | Source/VirtualMachine.cpp:108-110 | `push 7; push 3; isub; push 0; ine` halts with 0 on top |
| `Machine.DiffIneHaltsWithOne` | Source/VirtualMachine.cpp:108-110 | `push 7; push 3; isub; ine` halts with 1 on top |
| `Machine.RunHalts` | Source/VirtualMachine.cpp:59-60 | a run at `SYS SC_EXIT` halts there |
| `Machine.RunCycle` | Source/VirtualMachine.cpp:39-201 | a run is one step followed by the rest of the run |
| `Machine.VirtualMachine.constructor` | Source/VirtualMachine.cpp:15-18 | the stack is zeroed and empty |
| `Machine.VirtualMachine.System` | Source/VirtualMachine.cpp:206-229 | handles exactly codes 1 to 4, each popping one word and emitting one event; agrees with the system step |
| `Machine.VirtualMachine.Call` | Source/VirtualMachine.cpp:231-267 | pops the parameters and pushes one result, 0 when the function returns nothing; no other slot changes; agrees with the call step |
| `Machine.VirtualMachine.Control` | Source/VirtualMachine.cpp:44-90 | executes a control opcode exactly as the step semantics does |
| `Machine.VirtualMachine.Memory` | Source/VirtualMachine.cpp:64-78 | executes a stack or local opcode exactly as the step semantics does |
| `Machine.VirtualMachine.Unary` | Source/VirtualMachine.cpp:104-134 | executes a test or conversion exactly as the step semantics does |
| `Machine.VirtualMachine.Binary` | Source/VirtualMachine.cpp:92-196 | executes a two-operand opcode exactly as the step semantics does |
| `Machine.VirtualMachine.Cycle` | Source/VirtualMachine.cpp:39-200 | one pass of the loop is exactly one step |
| `Machine.VirtualMachine.Advance` | Source/VirtualMachine.cpp:39-201 | one pass keeps the run's final outcome ahead |
| `Machine.VirtualMachine.Loop` | Source/VirtualMachine.cpp:39-201 | the loop ends in exactly the run's outcome |
| `Machine.VirtualMachine.Execute` | Source/VirtualMachine.cpp:24-204 | appends `SYS SC_EXIT` when it is missing, then runs the code from an empty stack; returns true exactly when the run halts, and its outcome is the run's |

## Left out

- `Compiler.SymbolTable.SetIndices`, `Compiler.Compiler.MoveFunctions`, `Compiler.SymbolTable`: the entries are kept in insertion order. The source iterates a `hash_map` in bucket order, which depends on the byte-sum hash and the bucket count (Source/Compiler.cpp:105, 125-128, 555). So the model's `LOAD`, `STORE` and `CALL` operands and pointer-table slots may be numbered differently from the source's. What is proved does not depend on the order: entry `j` gets index `j`, and a call's operand selects its own function (`Compiler.CallOperandSelectsBoundFunction`). The hash and the order are modelled on their own (`MyComp`).
- `Assembler.Assemble`, `Assembler.AssembleText`: the input is a list of whole lines. The source reads with `fgets` into a 256-byte buffer, which splits a line longer than 255 characters into several lines.
- `Bytecode.Assembly.WriteDword`, `Compiler.Compiler.Error`, `Assembler.DefineLabel`: `curpos`, `errorcount`, parameter counts and label positions are unbounded naturals. In the source they are `dword`s that wrap at 2^32; label positions are wrapped where they are stored.
- `Compiler.Pointers`: the pointer slot of an unknown import is `None`. In the source it is left uninitialised.
- `Machine.VirtualMachine.Execute`: a `fuel` bound limits the number of steps, and the method returns false when fuel runs out. The source's `for(;;)` runs until `SYS SC_EXIT` or an unknown opcode.
- `Machine.VirtualMachine.Execute`: undefined behaviour in the source becomes the step result `Undefined`, and `Execute` requires that the run never reaches it. The cases are: the stack pointer leaving the 256-word stack, division by zero, `INT_MIN % -1`, `LOAD`/`STORE` before `LOCAL`, a fetch past the end of the code, a `CALL` index with no function, and code shorter than two words, where the check for a final `SYS SC_EXIT` (Source/VirtualMachine.cpp:27) reads before the buffer (`Execute` requires at least two words).
- `Compiler.Compiler.Compile`: the `WellFormed` precondition stands for what the parser guarantees: each node has the children its kind needs, and symbols are in their tables. The parser is not part of this model.
- Floating point: `(float)atof` in `StringToOperand`, and the opcodes `I2F`, `F2I`, `FADD`, `FSUB`, `FMUL`, `FDIV` and `FCMP`, go through the oracles `floatBits` and `env.fpu`. No IEEE arithmetic is modelled.
- Output: the `printf` diagnostics of `Compiler::Error`, `SetLabels`, `Assemble` and `System`, `Sleep`, and `DumpStack` are left out. System calls append an `Event` to a trace instead, and compiler errors are recorded as diagnostics.
- `Machine.VirtualMachine.Call`: the x86 calling bridge (`__asm push`, `call`, `pop`) and `popparams` are left out. The native result comes from the oracle `env.native`.
- The lexer, the parser and the tree walker (`TyroLexer.cpp`, `TyroParser.cpp`, `TyroTreeWalker.cpp`) and the driver `Tyro.cpp` are left out. `Compile` takes the parse result (a tree and its errors), or `None` when the file cannot be opened. Compiler.h is not part of this model: the node kinds and the `Symbol`, `Function` and `ImportList` records are taken from their uses.
- `Assembler.SetLabels`: requires an even word count, which the assembler always writes.
- `Assembler.Disassemble`: requires every opcode to have a table row, because the source indexes `opcodes[opcode]` without a check. It reads the code as a sequence rather than walking a pointer.
- `Assembler.Disassemble`: the expected round trip (a listing assembles back to the same code) is false for the program. A listing assembles back to the same code only when the code has no jumps (`Assembler.ListingReassembles`). A jump is printed as the line number `operand / 2 + 1`, which the assembler reads as the name of a label nobody defines, so any listing with a jump fails to assemble (`Assembler.ListingWithJumpFails`). No label-emitting disassembler is modelled.
- `Assembler.OperandText`: the line-number form of a jump is stated only for operands below `0xFFFFFFFE`. For the last two values, `operand / 2 + 1` is 0x80000000, which `%d` prints as a negative number.
- `Assembler.StringToOperand`: the contract states only the empty-operand case. The other paths are stated by `Assembler.OperandDecimal`, `Assembler.OperandChar`, `Assembler.OperandEscape`, `Assembler.OperandTrue` and `Assembler.HexEndingInF`. A hexadecimal listing is not read back in general, because an operand whose last digit is `f` takes the float path.
- `Machine.VirtualMachine.Execute`: the source returns from inside the loop on `SYS SC_EXIT`. The model leaves the loop through its outcome instead.
- The destructors, `GetByteCode`, `GetFunctions` and the `Compiler::Error(message, Node*)` overload have no contracts of their own. The overload passes the node's line, or 0.

## Findings

| source | as written | input that shows it | evidently intended | confidence | as-written member | corrected member |
|---|---|---|---|---|---|---|
| Source/Assembly.cpp:84 | `Load` allocates exactly `curpos` words, so the next `WriteDword` (Source/Assembly.cpp:34) writes `bytecode[curpos]`, one past the end | any loaded file, e.g. one holding only the count 0, followed by one `WriteDword` | allocate room beyond the loaded words, as `WriteDword` keeps it (a whole number of 1024-word blocks above the count), so the loaded assembly can be extended | not executed | `Bytecode.Assembly.LoadAsWritten` | `Bytecode.Assembly.Load` |
| Source/VirtualMachine.cpp:108-110 | `ine` replaces the top word by 1 when it is non-zero and does not pop, so the program `push 7; push 3; isub; push 0; ine`, expected to leave 1, tests the pushed 0 and leaves 0 | the five-instruction program `push 7; push 3; isub; push 0; ine` | `ine` was meant to test the difference 7 - 3, as the compiler emits for `!=` (Source/Compiler.cpp:392-401); without the `push 0` the program leaves 1 | not executed | `Machine.PushZeroIneExample` | `Machine.DiffIneHaltsWithOne` |
