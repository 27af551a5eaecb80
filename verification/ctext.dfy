/**
 * The C library text routines the toolchain relies on, over `string`
 * (one char per byte): `isspace`, `tolower`, `stricmp`, `atoi` and
 * `strtol(s, null, 0)` with a 32-bit `long`, and the `%d` / `0x%08x`
 * renderings used by the disassembler.
 */
module CText {
  import opened Words

  /** `isspace`: space, tab, newline, vertical tab, form feed, carriage return. */
  predicate IsSpace(c: char)
  {
    c == ' ' || 9 <= c as int <= 13
  }

  /** `tolower` on ASCII letters; every other char is unchanged. */
  function ToLower(c: char): (r: char)
    ensures 'A' <= c <= 'Z' ==> 'a' <= r <= 'z'
    ensures !('A' <= c <= 'Z') ==> r == c
  {
    if 'A' <= c <= 'Z' then (c as int + 32) as char else c
  }

  /** `stricmp(a, b) == 0`: equal lengths and equal chars after `tolower`, compared from the front. */
  predicate SameIgnoringCase(a: string, b: string)
  {
    |a| == |b| && (a == [] || (ToLower(a[0]) == ToLower(b[0]) && SameIgnoringCase(a[1..], b[1..])))
  }

  /** Two strings are the same ignoring case exactly when they agree at every position after `tolower`. */
  lemma {:induction false} SameIgnoringCaseAt(a: string, b: string)
    ensures SameIgnoringCase(a, b) <==> |a| == |b| && forall i :: 0 <= i < |a| ==> ToLower(a[i]) == ToLower(b[i])
  {
    if a != [] && |a| == |b| {
      SameIgnoringCaseAt(a[1..], b[1..]);
      assert forall i :: 1 <= i < |a| ==> a[1..][i - 1] == a[i] && b[1..][i - 1] == b[i];
    }
  }

  /** The first index at or after `j` that does not hold a space (or the end). */
  function SkipSpaces(s: string, j: nat): (r: nat)
    requires j <= |s|
    ensures j <= r <= |s|
    ensures forall i :: j <= i < r ==> IsSpace(s[i])
    ensures r < |s| ==> !IsSpace(s[r])
    decreases |s| - j
  {
    if j == |s| || !IsSpace(s[j]) then j else SkipSpaces(s, j + 1)
  }

  /** The value of `c` as a digit in `base` (2..36), if it is one. */
  function DigitValue(c: char, base: nat): (r: Option<nat>)
    ensures r.Some? ==> r.value < base
  {
    var d :=
      if '0' <= c <= '9' then c as int - '0' as int
      else if 'a' <= c <= 'z' then c as int - 'a' as int + 10
      else if 'A' <= c <= 'Z' then c as int - 'A' as int + 10
      else 36;
    if d < base then Some(d) else None
  }

  /** The length of the leading run of digits of `s` in `base`. */
  function DigitRun(s: string, base: nat): (n: nat)
    ensures n <= |s|
    ensures forall i :: 0 <= i < n ==> DigitValue(s[i], base).Some?
    ensures n < |s| ==> DigitValue(s[n], base).None?
  {
    if s == [] || DigitValue(s[0], base).None? then 0 else 1 + DigitRun(s[1..], base)
  }

  /** The number a string of digits denotes, most significant digit first. */
  function Value(d: string, base: nat): nat
    requires forall i :: 0 <= i < |d| ==> DigitValue(d[i], base).Some?
  {
    if d == [] then 0
    else
      Value(d[..|d| - 1], base) * base + DigitValue(d[|d| - 1], base).value
  }

  /** The number denoted by the leading digits of `s`. */
  function LeadingValue(s: string, base: nat): nat
  {
    Value(s[..DigitRun(s, base)], base)
  }

  /** Saturation at the range of a 32-bit `long`, as `strtol` reports overflow. */
  function Clamp(v: int): (r: int)
    ensures SignedMin <= r <= SignedMax
    ensures SignedMin <= v <= SignedMax ==> r == v
  {
    if v < SignedMin then SignedMin else if v > SignedMax then SignedMax else v
  }

  /** What follows an optional sign, and whether the sign was a minus. */
  function Unsign(t: string): (string, bool)
  {
    if |t| > 0 && (t[0] == '-' || t[0] == '+') then (t[1..], t[0] == '-') else (t, false)
  }

  /** `strtol(s, null, 0)`: spaces, a sign, then `0x` hex, `0` octal or decimal digits; saturates at the `long` range. */
  function Strtol(s: string): (v: int)
    ensures SignedMin <= v <= SignedMax
  {
    var (u, neg) := Unsign(s[SkipSpaces(s, 0)..]);
    var m: int :=
      if |u| >= 2 && u[0] == '0' && (u[1] == 'x' || u[1] == 'X') then LeadingValue(u[2..], 16)
      else if |u| >= 1 && u[0] == '0' then LeadingValue(u, 8)
      else LeadingValue(u, 10);
    Clamp(if neg then -m else m)
  }

  /** `atoi(s)`: spaces, a sign, decimal digits; saturates at the `int` range. */
  function Atoi(s: string): (v: int)
    ensures SignedMin <= v <= SignedMax
  {
    var (u, neg) := Unsign(s[SkipSpaces(s, 0)..]);
    var m: int := LeadingValue(u, 10);
    Clamp(if neg then -m else m)
  }

  function DigitChar(d: nat): (c: char)
    requires d < 16
    ensures DigitValue(c, 16) == Some(d)
    ensures d < 10 ==> DigitValue(c, 10) == Some(d) && DigitValue(c, 8) == (if d < 8 then Some(d) else None)
  {
    if d < 10 then ('0' as int + d) as char else ('a' as int + d - 10) as char
  }

  /** The decimal digits of `n`, without leading zeros. */
  function Digits(n: nat): (s: string)
    ensures |s| > 0
    ensures forall i :: 0 <= i < |s| ==> DigitValue(s[i], 10).Some?
    ensures s[0] == '0' <==> n == 0
  {
    if n < 10 then [DigitChar(n)] else Digits(n / 10) + [DigitChar(n % 10)]
  }

  /** `printf("%d", v)`. */
  function Decimal(v: int): (s: string)
    ensures |s| > 0 && forall i :: 0 <= i < |s| ==> !IsSpace(s[i])
    ensures forall i :: 0 <= i < |s| ==> s[i] == '-' || '0' <= s[i] <= '9'
    ensures '0' <= s[|s| - 1] <= '9' && (s[0] == '-' <==> v < 0)
  {
    if v < 0 then "-" + Digits(-v) else Digits(v)
  }

  /** `printf("0x%08x", w)`: eight lower-case hex digits, most significant first. */
  function Hex8(w: Word): (s: string)
    ensures |s| == 10 && s[..2] == "0x"
    ensures forall i :: 0 <= i < |s| ==> !IsSpace(s[i])
    ensures forall i :: 2 <= i < |s| ==> DigitValue(s[i], 16).Some?
    ensures Value(s[2..], 16) == w
  {
    var d := HexDigits(w, 8);
    assert Pow16(8) == 0x1_0000_0000;
    HexValue(w, 8);
    assert ("0x" + d)[2..] == d;
    "0x" + d
  }

  /** `16` to the power `k`: how many values `k` hex digits can show. */
  function Pow16(k: nat): (p: nat)
    ensures p > 0
  {
    if k == 0 then 1 else 16 * Pow16(k - 1)
  }

  function HexDigits(n: nat, count: nat): (s: string)
    ensures |s| == count
    ensures forall i :: 0 <= i < |s| ==> DigitValue(s[i], 16).Some?
  {
    if count == 0 then [] else HexDigits(n / 16, count - 1) + [DigitChar(n % 16)]
  }

  /** `count` hex digits of a number they can show denote that number. */
  lemma {:induction false} HexValue(n: nat, count: nat)
    requires n < Pow16(count)
    ensures Value(HexDigits(n, count), 16) == n
  {
    if count > 0 {
      assert n / 16 < Pow16(count - 1);
      HexValue(n / 16, count - 1);
      var s := HexDigits(n, count);
      assert s[..|s| - 1] == HexDigits(n / 16, count - 1);
    }
  }

  /** The digits of `n` denote `n`. */
  lemma {:induction false} ValueDigits(n: nat)
    ensures Value(Digits(n), 10) == n
  {
    if n >= 10 {
      ValueDigits(n / 10);
      var s := Digits(n);
      assert s[..|s| - 1] == Digits(n / 10);
    }
  }

  /** A run of digits is read in full. */
  lemma {:induction false} DigitRunAll(s: string, base: nat)
    requires forall i :: 0 <= i < |s| ==> DigitValue(s[i], base).Some?
    ensures DigitRun(s, base) == |s|
  {
    if s != [] {
      DigitRunAll(s[1..], base);
    }
  }

  /** Reading back a decimal rendering with `strtol` gives the number. */
  lemma StrtolDecimal(v: int)
    requires SignedMin <= v <= SignedMax
    ensures Strtol(Decimal(v)) == v
  {
    var s := Decimal(v);
    assert SkipSpaces(s, 0) == 0;
    assert s[0..] == s;
    var n := if v < 0 then -v else v;
    var d := Digits(n);
    assert Unsign(s) == (d, v < 0);
    DigitRunAll(d, 10);
    ValueDigits(n);
    assert d[..|d|] == d;
    if n == 0 {
      assert d == "0";
      assert DigitRun(d, 8) == 1;
      assert d[..1] == d && d[..0] == [];
      assert Value(d, 8) == Value(d[..0], 8) * 8 + DigitValue(d[0], 8).value;
    } else {
      assert !(|d| >= 1 && d[0] == '0');
    }
  }

  /** Reading back a decimal rendering with `atoi` gives the number. */
  lemma AtoiDecimal(v: int)
    requires SignedMin <= v <= SignedMax
    ensures Atoi(Decimal(v)) == v
  {
    var s := Decimal(v);
    assert SkipSpaces(s, 0) == 0;
    assert s[0..] == s;
    var n := if v < 0 then -v else v;
    var d := Digits(n);
    assert Unsign(s) == (d, v < 0);
    DigitRunAll(d, 10);
    ValueDigits(n);
    assert d[..|d|] == d;
  }
}
