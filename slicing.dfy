/** Python slice semantics on sequences: bounds count from the end when
    negative and are clamped to the sequence. */
module Slicing {

  function Min(a: int, b: int): int { if a <= b then a else b }

  function Max(a: int, b: int): int { if a >= b then a else b }

  /** Where a slice bound `i` lands in a sequence of length `len`. */
  function Bound(len: nat, i: int): (b: nat)
    ensures b <= len
    ensures i >= 0 ==> b == Min(i, len)
    ensures i < 0 ==> b == Max(0, len + i)
  {
    if i < 0 then (if len + i < 0 then 0 else len + i)
    else if i > len then len else i
  }

  /** `s[start:]` */
  function SliceFrom<T>(s: seq<T>, start: int): seq<T> {
    s[Bound(|s|, start)..]
  }

  /** `s[start:stop]` */
  function Slice<T>(s: seq<T>, start: int, stop: int): seq<T> {
    var a, b := Bound(|s|, start), Bound(|s|, stop);
    if a < b then s[a..b] else []
  }

  /** `s[-n:]` for n >= 1 is the last min(n, |s|) elements. */
  lemma TailSlice<T>(s: seq<T>, n: int)
    requires n >= 1
    ensures SliceFrom(s, -n) == s[|s| - Min(n, |s|)..]
    ensures |SliceFrom(s, -n)| == Min(n, |s|)
  {
  }

  /** `s[-0:]` is `s[0:]`: the whole sequence, not an empty tail. */
  lemma TailSliceZero<T>(s: seq<T>)
    ensures SliceFrom(s, -0) == s
  {
  }

  /** `s[:k]` is a prefix of `s` of length min(k, |s|), or |s| + k when k is negative. */
  lemma PrefixSlice<T>(s: seq<T>, k: int)
    ensures Slice(s, 0, k) == s[..|Slice(s, 0, k)|]
    ensures |Slice(s, 0, k)| == if k >= 0 then Min(k, |s|) else Max(0, |s| + k)
  {
  }
}
