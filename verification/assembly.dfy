/**
 * The bytecode container (class Assembly): an append-only buffer of 32-bit
 * words that grows in blocks of 1024 words, the table of native function
 * descriptors attached to it, and the binary save layout
 * (a count word followed by that many words).
 */
module Bytecode {
  import opened Words

  /** Words added to the backing buffer each time it fills up. */
  const BufferSize: nat := 1024

  /**
   * A native function descriptor. `pointer` stands for the native code
   * address: the model only compares and passes it on.
   */
  datatype Function = Function(name: string, pointer: nat, paramcount: Word, returncount: Word, popparams: bool)

  /** The smallest backing size that lets `n` words be followed by writes up to the next block boundary. */
  function Capacity(n: nat): (c: nat)
    ensures c > n && c % BufferSize == 0
  {
    (n / BufferSize + 1) * BufferSize
  }

  /** Appending one word keeps the capacity until the count reaches a block boundary. */
  lemma CapacityStep(n: nat)
    ensures Capacity(n + 1) == if (n + 1) % BufferSize == 0 then n + 1 + BufferSize else Capacity(n)
  {
  }

  /** The saved file: the word count, then the words. */
  function Encode(words: seq<Word>): (file: seq<Word>)
    requires |words| < WordLimit
    ensures |file| == |words| + 1
    ensures file[0] == |words| && file[1..] == words
  {
    [|words| as Word] + words
  }

  /**
   * What loading a file yields: an empty file leaves the count at 0; a file
   * shorter than its count leaves words that were never read (None).
   * Words after the counted ones are ignored.
   */
  function Decode(file: seq<Word>): (r: Option<seq<Word>>)
    ensures file == [] ==> r == Some([])
    ensures r.Some? && file != [] ==> |file| - 1 >= file[0] && r.value == file[1..1 + file[0]]
    ensures file != [] && |file| - 1 >= file[0] ==> r.Some?
  {
    if file == [] then Some([])
    else if |file| - 1 >= file[0] then Some(file[1..1 + file[0]])
    else None
  }

  /** Loading what was saved gives back the same words, whatever follows them in the file. */
  lemma DecodeEncode(words: seq<Word>, trailing: seq<Word>)
    requires |words| < WordLimit
    ensures Decode(Encode(words) + trailing) == Some(words)
  {
    var file := Encode(words) + trailing;
    assert file[1..1 + file[0]] == words;
  }

  /** A file that decodes is the encoding of its words followed by ignored words. */
  lemma EncodeDecode(file: seq<Word>)
    requires file != [] && Decode(file).Some?
    ensures Encode(Decode(file).value) == file[..1 + file[0]]
  {
  }

  class Assembly {
    /** The native function table; the source's null table is the empty sequence. A `None` entry is a slot never filled. */
    var functions: seq<Option<Function>>
    var functioncount: Word
    /** Backing storage; only the first `curpos` words hold code. */
    var bytecode: array?<Word>
    var curpos: nat

    /** The backing buffer always has room up to the next 1024-word boundary. */
    ghost predicate Valid()
      reads this
    {
      && (bytecode == null ==> curpos == 0)
      && (bytecode != null ==> bytecode.Length >= Capacity(curpos))
    }

    /** The words written since the last Clear. */
    function Words(): (w: seq<Word>)
      reads this, bytecode
      requires Valid()
      ensures |w| == curpos
    {
      if bytecode == null then [] else bytecode[..curpos]
    }

    constructor ()
      ensures Valid() && Words() == []
      ensures bytecode == null && functions == [] && functioncount == 0
    {
      curpos := 0;
      bytecode := null;
      functioncount := 0;
      functions := [];
    }

    /** Drops the code and the function table. */
    method Clear()
      modifies this
      ensures Valid() && Words() == [] && curpos == 0
      ensures bytecode == null && functions == [] && functioncount == 0
    {
      bytecode := null;
      functions := [];
      functioncount := 0;
      curpos := 0;
    }

    /** Appends one word, moving to a buffer 1024 words larger when the count reaches a multiple of 1024. */
    method WriteDword(value: Word) returns (ok: bool)
      requires Valid()
      modifies this, bytecode
      ensures Valid() && ok
      ensures Words() == old(Words()) + [value] && curpos == old(curpos) + 1
      ensures functions == old(functions) && functioncount == old(functioncount)
      ensures bytecode == old(bytecode) || fresh(bytecode)
      ensures curpos % BufferSize == 0 ==> bytecode.Length == curpos + BufferSize
      ensures curpos % BufferSize != 0 && old(bytecode) != null ==> bytecode == old(bytecode)
    {
      ghost var before := Words();
      if bytecode == null {
        bytecode := new Word[BufferSize];
      }
      var code := bytecode;
      assert code[..curpos] == before;
      CapacityStep(curpos);
      code[curpos] := value;
      assert code[..curpos + 1] == before + [value];
      curpos := curpos + 1;
      if curpos % BufferSize == 0 {
        var buffer := new Word[curpos + BufferSize];
        var i := 0;
        while i < curpos
          modifies buffer
          invariant 0 <= i <= curpos
          invariant buffer[..i] == code[..i]
        {
          buffer[i] := code[i];
          i := i + 1;
        }
        bytecode := buffer;
      }
      ok := true;
    }

    /** Appends an instruction: the opcode word, then the operand word. */
    method WriteOp(opcode: Word, operand: Word) returns (ok: bool)
      requires Valid()
      modifies this, bytecode
      ensures Valid() && ok
      ensures Words() == old(Words()) + [opcode, operand] && curpos == old(curpos) + 2
      ensures functions == old(functions) && functioncount == old(functioncount)
      ensures bytecode == old(bytecode) || fresh(bytecode)
    {
      ghost var words := Words();
      ok := WriteDword(opcode);
      ok := WriteDword(operand);
      AppendAssociates(words, [opcode], [operand]);
      assert [opcode] + [operand] == [opcode, operand];
    }

    /** The number of words written since the last Clear. */
    function GetSize(): (n: nat)
      reads this, bytecode
      requires Valid()
      ensures n == |Words()|
    {
      curpos
    }

    /** Replaces the function table; the code is untouched. */
    method SetFunctions(fns: seq<Option<Function>>, count: Word) returns (ok: bool)
      requires Valid()
      modifies this
      ensures Valid() && ok
      ensures functions == fns && functioncount == count
      ensures bytecode == old(bytecode) && curpos == old(curpos) && Words() == old(Words())
    {
      functions := fns;
      functioncount := count;
      ok := true;
    }

    /**
     * The words a save writes: the count, then the code. `created` is whether
     * the output file could be opened; when it could not, nothing is written.
     */
    method Save(created: bool) returns (ok: bool, file: seq<Word>)
      requires Valid() && curpos < WordLimit
      ensures ok <==> created
      ensures !created ==> file == []
      ensures created ==> file == Encode(Words()) && Decode(file) == Some(Words())
    {
      if !created {
        return false, [];
      }
      ok := true;
      file := [curpos as Word];
      if bytecode != null {
        var i := 0;
        while i < curpos
          invariant 0 <= i <= curpos
          invariant file == [curpos as Word] + bytecode[..i]
        {
          file := file + [bytecode[i]];
          i := i + 1;
        }
      }
      DecodeEncode(Words(), []);
      assert Encode(Words()) + [] == Encode(Words());
    }

    /**
     * Loads a saved file, allocating exactly `count` words as the source does.
     * The next WriteDword then writes past the end of the buffer. `readable` is
     * whether the file could be opened; when it could not, the container is
     * left empty.
     */
    method LoadAsWritten(readable: bool, file: seq<Word>) returns (ok: bool)
      modifies this
      ensures ok <==> readable
      ensures functions == [] && functioncount == 0
      ensures !readable ==> Valid() && Words() == [] && bytecode == null
      ensures readable ==> bytecode != null && fresh(bytecode)
      ensures readable ==> curpos == (if file == [] then 0 else file[0])
      ensures readable ==> bytecode.Length == curpos && !Valid()
      ensures readable && Decode(file).Some? ==> bytecode[..] == Decode(file).value
    {
      Clear();
      if !readable {
        return false;
      }
      var count: nat := if file == [] then 0 else file[0];
      var buffer := new Word[count];
      var avail := if file == [] then 0 else |file| - 1;
      var i := 0;
      while i < count && i < avail
        modifies buffer
        invariant 0 <= i <= count && i <= avail
        invariant forall k :: 0 <= k < i ==> buffer[k] == file[1 + k]
      {
        buffer[i] := file[1 + i];
        i := i + 1;
      }
      bytecode := buffer;
      curpos := count;
      ok := true;
    }

    /**
     * Loads a saved file into a buffer with room up to the next block boundary,
     * so that later appends stay inside it.
     * A file that cannot be read leaves the container empty.
     */
    method Load(readable: bool, file: seq<Word>) returns (ok: bool)
      modifies this
      ensures Valid() && (ok <==> readable)
      ensures functions == [] && functioncount == 0
      ensures !readable ==> Words() == []
      ensures readable ==> curpos == (if file == [] then 0 else file[0])
      ensures readable && Decode(file).Some? ==> Words() == Decode(file).value
    {
      Clear();
      if !readable {
        return false;
      }
      if file == [] {
        return true;
      }
      var count: nat := file[0];
      var buffer := new Word[Capacity(count)];
      var avail := |file| - 1;
      var i := 0;
      while i < count && i < avail
        modifies buffer
        invariant 0 <= i <= count && i <= avail
        invariant forall k :: 0 <= k < i ==> buffer[k] == file[1 + k]
      {
        buffer[i] := file[1 + i];
        i := i + 1;
      }
      bytecode := buffer;
      curpos := count;
      ok := true;
    }
  }
}
