/** Small shared vocabulary: optional values, results with an error path,
    and the index arithmetic of JavaScript's `Array.prototype.slice`. */
module Common {

  datatype Option<+T> = None | Some(value: T)

  datatype Result<+T> = Ok(value: T) | Err(message: string)

  function Min(a: int, b: int): int { if a <= b then a else b }

  function Max(a: int, b: int): int { if a <= b then b else a }

  /** The end index `s.slice(0, end)` uses: a negative end counts back from
      the end of the sequence, and the index is clamped into [0, |s|]. */
  function SliceEnd(len: nat, end: int): (e: nat)
    ensures e <= len
    ensures 0 <= end ==> e == Min(end, len)
    ensures end < 0 ==> e == Max(len + end, 0)
  {
    if end < 0 then (if len + end < 0 then 0 else len + end)
    else if end < len then end else len
  }

  /** `s.slice(0, end)`. */
  function SliceTo<T>(s: seq<T>, end: int): (r: seq<T>)
    ensures r == s[..SliceEnd(|s|, end)]
  {
    s[..SliceEnd(|s|, end)]
  }

  /** `s.slice(-k)` for a positive k: the last k elements, or all of them. */
  function TakeLast<T>(s: seq<T>, k: nat): (r: seq<T>)
    ensures |r| == Min(k, |s|)
    ensures forall i :: 0 <= i < |r| ==> r[i] == s[|s| - |r| + i]
  {
    if |s| <= k then s else s[|s| - k..]
  }

  /** No element occurs twice. */
  predicate Distinct<T(==)>(s: seq<T>)
  {
    forall i, j :: 0 <= i < j < |s| ==> s[i] != s[j]
  }

  lemma AppendAssociates<T>(a: seq<T>, b: seq<T>, c: seq<T>)
    ensures a + (b + c) == (a + b) + c
  {
  }

  lemma DistinctSnoc<T>(s: seq<T>, x: T)
    requires Distinct(s) && x !in s
    ensures Distinct(s + [x])
  {
  }

  lemma DistinctInit<T>(s: seq<T>)
    requires Distinct(s) && |s| > 0
    ensures Distinct(s[..|s| - 1]) && s[|s| - 1] !in s[..|s| - 1]
  {
  }

  /** `s` is obtained from `t` by deleting elements, keeping the order of
      the rest. Stated from the back, the way the batch loops append. */
  predicate IsSubsequence<T(==)>(s: seq<T>, t: seq<T>)
    decreases |t|
  {
    if t == [] then s == []
    else
      || (s != [] && s[|s| - 1] == t[|t| - 1] && IsSubsequence(s[..|s| - 1], t[..|t| - 1]))
      || IsSubsequence(s, t[..|t| - 1])
  }

  /** One more input element, kept or dropped, keeps the relation. */
  lemma SubsequenceExtend<T>(s: seq<T>, t: seq<T>, x: T, keep: bool)
    requires IsSubsequence(s, t)
    ensures IsSubsequence(if keep then s + [x] else s, t + [x])
  {
    assert (t + [x])[..|t|] == t;
    if keep { assert (s + [x])[..|s|] == s; }
  }

  lemma {:induction false} SubsequenceLength<T>(s: seq<T>, t: seq<T>)
    requires IsSubsequence(s, t)
    ensures |s| <= |t|
    decreases |t|
  {
    if t != [] {
      if s != [] && s[|s| - 1] == t[|t| - 1] && IsSubsequence(s[..|s| - 1], t[..|t| - 1]) {
        SubsequenceLength(s[..|s| - 1], t[..|t| - 1]);
      } else {
        SubsequenceLength(s, t[..|t| - 1]);
      }
    }
  }

  /** A subsequence as long as the whole is the whole. */
  lemma {:induction false} SubsequenceFull<T>(s: seq<T>, t: seq<T>)
    requires IsSubsequence(s, t) && |s| == |t|
    ensures s == t
    decreases |t|
  {
    if t != [] {
      if s != [] && s[|s| - 1] == t[|t| - 1] && IsSubsequence(s[..|s| - 1], t[..|t| - 1]) {
        SubsequenceFull(s[..|s| - 1], t[..|t| - 1]);
        assert s == s[..|s| - 1] + [s[|s| - 1]];
        assert t == t[..|t| - 1] + [t[|t| - 1]];
      } else {
        SubsequenceLength(s, t[..|t| - 1]);
      }
    }
  }

  lemma {:induction false} SubsequenceOfSelf<T>(s: seq<T>)
    ensures IsSubsequence(s, s)
    decreases |s|
  {
    if s != [] {
      SubsequenceOfSelf(s[..|s| - 1]);
    }
  }
}
