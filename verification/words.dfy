/** 32-bit machine words (the source's `dword`), their signed reading, and Option. */
module Words {

  const WordLimit: int := 0x1_0000_0000
  const SignedMin: int := -0x8000_0000
  const SignedMax: int := 0x7FFF_FFFF

  /** An unsigned 32-bit word. */
  type Word = x: int | 0 <= x < 0x1_0000_0000

  /** An 8-bit unsigned byte. */
  type Byte = b: int | 0 <= b < 256

  datatype Option<+T> = None | Some(value: T)

  /** `x` and `y` are the same number modulo 2^32. */
  predicate Congruent(x: int, y: int)
  {
    (x - y) % WordLimit == 0
  }

  /** Arithmetic modulo 2^32: what an assignment to a `dword` does to an int. */
  function Wrap(x: int): (w: Word)
    ensures Congruent(w, x)
    ensures 0 <= x < WordLimit ==> w == x
  {
    x % WordLimit
  }

  /** Wrapping an intermediate result of an addition does not change the wrapped total. */
  lemma WrapAdd(x: int, y: int)
    ensures Wrap(Wrap(x) + y) == Wrap(x + y)
  {
    var q := x / WordLimit;
    assert Wrap(x) + y == (x + y) - q * WordLimit;
  }

  /** The two's-complement reading of a word (`*(long *)&w`). */
  function ToSigned(w: Word): (v: int)
    ensures SignedMin <= v <= SignedMax
    ensures Wrap(v) == w
    ensures v < 0 <==> w >= 0x8000_0000
  {
    if w < 0x8000_0000 then w else w - WordLimit
  }

  /** The word whose two's-complement reading is `v` (`*(dword *)&v` for a 32-bit long). */
  function FromSigned(v: int): (w: Word)
    requires SignedMin <= v <= SignedMax
    ensures ToSigned(w) == v
  {
    if v < 0 then v + WordLimit else v
  }

  /** Reading a word as signed and storing it back gives the same word. */
  lemma FromToSigned(w: Word)
    ensures FromSigned(ToSigned(w)) == w
  {
  }

  function Bool(b: bool): (w: Word)
    ensures w == 0 || w == 1
    ensures w == 1 <==> b
  {
    if b then 1 else 0
  }

  /** Concatenation regroups; stated once so that proofs about appended words need not rediscover it. */
  lemma AppendAssociates<T>(a: seq<T>, b: seq<T>, c: seq<T>)
    ensures (a + b) + c == a + (b + c)
  {
    assert |(a + b) + c| == |a + (b + c)|;
  }
}
