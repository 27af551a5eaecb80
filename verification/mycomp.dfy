/**
 * The hash/compare functor used by the compiler's string-keyed tables:
 * a byte-sum hash that wraps in a 32-bit `size_t`, and the lexicographic
 * less-than of `std::string` (bytes compared as unsigned).
 */
module MyComp {
  import opened Words

  /** The hash as the source computes it: a left-to-right fold that wraps after every add. */
  function Hash(s: seq<Byte>): (h: Word)
    ensures s == [] ==> h == 0
  {
    if s == [] then 0 else Wrap(Hash(s[..|s| - 1]) + s[|s| - 1])
  }

  /** Reference definition: the plain (unbounded) sum of the bytes. */
  function Sum(s: seq<Byte>): nat
  {
    if s == [] then 0 else s[0] + Sum(s[1..])
  }

  lemma {:induction false} SumAppend(s: seq<Byte>, b: Byte)
    ensures Sum(s + [b]) == Sum(s) + b
  {
    if s != [] {
      assert (s + [b])[1..] == s[1..] + [b];
      SumAppend(s[1..], b);
    }
  }

  /** The wrapping fold equals the sum of the bytes taken modulo 2^32. */
  lemma {:induction false} HashIsWrappedSum(s: seq<Byte>)
    ensures Hash(s) == Wrap(Sum(s))
  {
    if s != [] {
      var init := s[..|s| - 1];
      HashIsWrappedSum(init);
      assert init + [s[|s| - 1]] == s;
      SumAppend(init, s[|s| - 1]);
      WrapAdd(Sum(init), s[|s| - 1]);
    }
  }

  lemma {:induction false} SumSplit(s: seq<Byte>, k: nat)
    requires k < |s|
    ensures Sum(s) == Sum(s[..k]) + s[k] + Sum(s[k + 1..])
  {
    if k > 0 {
      SumSplit(s[1..], k - 1);
      assert s[1..][..k - 1] == s[1..k];
      assert s[1..][k - 1 + 1..] == s[k + 1..];
      assert s[..k][1..] == s[1..k];
    }
  }

  lemma {:induction false} SumConcat(a: seq<Byte>, b: seq<Byte>)
    ensures Sum(a + b) == Sum(a) + Sum(b)
  {
    if a != [] {
      assert (a + b)[1..] == a[1..] + b;
      SumConcat(a[1..], b);
    } else {
      assert a + b == b;
    }
  }

  /** The sum depends only on the multiset of bytes. */
  lemma {:induction false} SumPermutation(s: seq<Byte>, t: seq<Byte>)
    requires multiset(s) == multiset(t)
    ensures Sum(s) == Sum(t)
    decreases |s|
  {
    if s == [] {
      assert |t| == |multiset(t)| == 0;
    } else {
      assert s[0] in multiset(t);
      var k :| 0 <= k < |t| && t[k] == s[0];
      var rest := t[..k] + t[k + 1..];
      assert t == t[..k] + [t[k]] + t[k + 1..];
      assert s == [s[0]] + s[1..];
      assert multiset(t) == multiset(t[..k]) + multiset{t[k]} + multiset(t[k + 1..]);
      assert multiset(s) == multiset{s[0]} + multiset(s[1..]);
      assert multiset(rest) == multiset(t[..k]) + multiset(t[k + 1..]);
      assert multiset(rest) == multiset(t) - multiset{t[k]};
      assert multiset(s[1..]) == multiset(s) - multiset{s[0]};
      assert multiset(s[1..]) == multiset(rest);
      SumPermutation(s[1..], rest);
      SumSplit(t, k);
      SumConcat(t[..k], t[k + 1..]);
    }
  }

  /** Strings that are permutations of one another hash alike. */
  lemma HashPermutation(s: seq<Byte>, t: seq<Byte>)
    requires multiset(s) == multiset(t)
    ensures Hash(s) == Hash(t)
  {
    HashIsWrappedSum(s);
    HashIsWrappedSum(t);
    SumPermutation(s, t);
  }

  /** `s1 < s2` on `std::string`: lexicographic, a proper prefix orders first. */
  predicate Less(s1: seq<Byte>, s2: seq<Byte>)
  {
    if s2 == [] then false
    else if s1 == [] then true
    else if s1[0] != s2[0] then s1[0] < s2[0]
    else Less(s1[1..], s2[1..])
  }

  lemma {:induction false} LessIrreflexive(s: seq<Byte>)
    ensures !Less(s, s)
  {
    if s != [] {
      LessIrreflexive(s[1..]);
    }
  }

  lemma {:induction false} LessAsymmetric(s1: seq<Byte>, s2: seq<Byte>)
    ensures Less(s1, s2) ==> !Less(s2, s1)
  {
    if s1 != [] && s2 != [] && s1[0] == s2[0] {
      LessAsymmetric(s1[1..], s2[1..]);
    }
  }

  lemma {:induction false} LessTransitive(s1: seq<Byte>, s2: seq<Byte>, s3: seq<Byte>)
    requires Less(s1, s2) && Less(s2, s3)
    ensures Less(s1, s3)
  {
    if s1 != [] && s1[0] == s2[0] && s2[0] == s3[0] {
      LessTransitive(s1[1..], s2[1..], s3[1..]);
    }
  }

  /** Distinct strings are always ordered one way or the other. */
  lemma {:induction false} LessTotal(s1: seq<Byte>, s2: seq<Byte>)
    requires s1 != s2
    ensures Less(s1, s2) || Less(s2, s1)
  {
    if s1 != [] && s2 != [] && s1[0] == s2[0] {
      assert s1 == [s1[0]] + s1[1..] && s2 == [s2[0]] + s2[1..];
      LessTotal(s1[1..], s2[1..]);
    }
  }
}
