/**
 * The removal pattern of `CollapseType`: the indices to remove are collected first, in
 * increasing order, and then removed one by one, so the `k`-th removal has to subtract the
 * `k` tokens already gone.  Nothing here depends on tokens.
 */
module ShiftedRemovals {

  /** Strictly increasing indices, all inside a list of length `n`. */
  predicate IncreasingWithin(r: seq<int>, n: int)
  {
    (forall a :: 0 <= a < |r| ==> 0 <= r[a] < n) &&
    (forall a, b :: 0 <= a < b < |r| ==> r[a] < r[b])
  }

  /** The list after `k` passes that each remove, in pass `j`, the element at `r[j] - j`. */
  function RemoveShifted<X>(s: seq<X>, r: seq<int>, k: nat): seq<X>
  {
    if k == 0 then s
    else
      var prev := RemoveShifted(s, r, k - 1);
      var i := if k - 1 < |r| then r[k - 1] - (k - 1) else -1;
      if 0 <= i < |prev| then prev[..i] + prev[i + 1..] else prev
  }

  /** The elements of `s[..n]` whose index is not listed in `r`, in order. */
  function KeptPrefix<X>(s: seq<X>, r: seq<int>, n: int): (kept: seq<X>)
    requires 0 <= n <= |s|
    ensures |kept| <= n
    decreases n
  {
    if n == 0 then [] else KeptPrefix(s, r, n - 1) + (if n - 1 in r then [] else [s[n - 1]])
  }

  /** The `k`-th listed index, or the end `n` once the list is used up. */
  function NextListed(r: seq<int>, n: int, k: nat): int
  {
    if k < |r| then r[k] else n
  }

  /** Where nothing is listed, the kept prefix grows by the elements themselves. */
  lemma {:induction false} KeptPrefixExtend<X>(s: seq<X>, r: seq<int>, a: int, b: int)
    requires 0 <= a <= b <= |s|
    requires forall j :: a <= j < b ==> j !in r
    ensures KeptPrefix(s, r, b) == KeptPrefix(s, r, a) + s[a..b]
    decreases b - a
  {
    if a < b {
      KeptPrefixExtend(s, r, a, b - 1);
      assert s[a..b] == s[a..b - 1] + [s[b - 1]];
    } else {
      assert s[a..b] == [];
    }
  }

  /** Between the listed indices `k - 1` and `k` nothing is listed. */
  lemma {:induction false} ListedGap(r: seq<int>, n: int, k: nat, j: int)
    requires IncreasingWithin(r, n) && k <= |r|
    requires k > 0 ==> r[k - 1] < j
    requires k < |r| ==> j < r[k]
    ensures j !in r
  {
    forall a | 0 <= a < |r|
      ensures r[a] != j
    {
      if a < k - 1 {
        assert r[a] < r[k - 1];
      } else if k < a {
        assert r[k] < r[a];
      }
    }
  }

  /** After the `k`-th listed index nothing is listed before the next one (or the end). */
  lemma {:induction false} ListedGapAfter(r: seq<int>, n: int, k: nat)
    requires IncreasingWithin(r, n) && k < |r|
    ensures r[k] in r && 0 <= r[k] < NextListed(r, n, k + 1) <= n
    ensures forall j :: r[k] < j < NextListed(r, n, k + 1) ==> j !in r
  {
    if k + 1 < |r| {
      assert r[k] < r[k + 1];
    }
    forall j | r[k] < j < NextListed(r, n, k + 1)
      ensures j !in r
    {
      ListedGap(r, n, k + 1, j);
    }
  }

  /** `s[p..]` is `s[p]`, then `s[p + 1..q]`, then `s[q..]`. */
  lemma {:induction false} SliceAround<X>(s: seq<X>, p: int, q: int)
    requires 0 <= p < q <= |s|
    ensures s[p..] == [s[p]] + (s[p + 1..q] + s[q..])
  {
    assert s[p + 1..] == s[p + 1..q] + s[q..];
  }

  /** Removing the element just after a prefix `c`. */
  lemma {:induction false} RemoveAfterPrefix<X>(c: seq<X>, x: X, mid: seq<X>, rest: seq<X>, current: seq<X>)
    requires current == c + ([x] + (mid + rest))
    ensures |c| < |current|
    ensures current[..|c|] + current[|c| + 1..] == (c + mid) + rest
  {
    assert current[..|c|] == c;
    assert current[|c| + 1..] == mid + rest;
  }

  /** Before the first listed index, the kept prefix is the prefix itself. */
  lemma {:induction false} RemoveShiftedStart<X>(s: seq<X>, r: seq<int>)
    requires IncreasingWithin(r, |s|)
    ensures KeptPrefix(s, r, NextListed(r, |s|, 0)) == s[..NextListed(r, |s|, 0)]
  {
    var p := NextListed(r, |s|, 0);
    forall j | 0 <= j < p
      ensures j !in r
    {
      ListedGap(r, |s|, 0, j);
    }
    KeptPrefixExtend(s, r, 0, p);
    assert s[0..p] == s[..p];
  }

  /**
   * Pass `k` of the loop: the list is the kept prefix up to the listed index `p`, of length
   * `p - k`, followed by the rest of `s`; removing `p - k` brings it up to the next listed
   * index `q`.
   */
  lemma {:induction false} RemoveShiftedStep<X>(s: seq<X>, r: seq<int>, k: nat, p: int, q: int, t: seq<X>)
    requires 0 <= p < q <= |s| && p in r
    requires forall j :: p < j < q ==> j !in r
    requires |KeptPrefix(s, r, p)| == p - k
    requires t == KeptPrefix(s, r, p) + s[p..]
    ensures 0 <= p - k < |t|
    ensures |KeptPrefix(s, r, q)| == q - (k + 1)
    ensures t[..p - k] + t[p - k + 1..] == KeptPrefix(s, r, q) + s[q..]
  {
    KeptPrefixAcross(s, r, p, q);
    SliceAround(s, p, q);
    RemoveAfterPrefix(KeptPrefix(s, r, p), s[p], s[p + 1..q], s[q..], t);
  }

  /** Across a listed index `p` and the unlisted ones after it, only `s[p]` is dropped. */
  lemma {:induction false} KeptPrefixAcross<X>(s: seq<X>, r: seq<int>, p: int, q: int)
    requires 0 <= p < q <= |s| && p in r
    requires forall j :: p < j < q ==> j !in r
    ensures KeptPrefix(s, r, q) == KeptPrefix(s, r, p) + s[p + 1..q]
  {
    assert KeptPrefix(s, r, p + 1) == KeptPrefix(s, r, p);
    KeptPrefixExtend(s, r, p + 1, q);
  }

  /**
   * After `k` passes the list is the kept prefix up to the `k`-th listed index followed by
   * the rest, and `k` elements are gone.
   */
  ghost predicate ShiftedState<X>(s: seq<X>, r: seq<int>, k: nat)
  {
    var p := NextListed(r, |s|, k);
    0 <= p <= |s| &&
    |RemoveShifted(s, r, k)| == |s| - k &&
    |KeptPrefix(s, r, p)| == p - k &&
    RemoveShifted(s, r, k) == KeptPrefix(s, r, p) + s[p..]
  }

  /** Before the first pass, the state holds. */
  lemma {:induction false} ShiftedStateStart<X>(s: seq<X>, r: seq<int>)
    requires IncreasingWithin(r, |s|)
    ensures ShiftedState(s, r, 0)
  {
    RemoveShiftedStart(s, r);
    var p := NextListed(r, |s|, 0);
    assert s == s[..p] + s[p..];
  }

  /** Each pass keeps the state. */
  lemma {:induction false} ShiftedStateNext<X>(s: seq<X>, r: seq<int>, k: nat)
    requires IncreasingWithin(r, |s|) && 0 < k <= |r| && ShiftedState(s, r, k - 1)
    ensures ShiftedState(s, r, k)
  {
    var prev := RemoveShifted(s, r, k - 1);
    ListedGapAfter(r, |s|, k - 1);
    RemoveShiftedStep(s, r, k - 1, r[k - 1], NextListed(r, |s|, k), prev);
    RemoveShiftedUnfold(s, r, k - 1);
  }

  /** The state holds after every pass. */
  lemma {:induction false} RemoveShiftedState<X>(s: seq<X>, r: seq<int>, k: nat)
    requires IncreasingWithin(r, |s|) && k <= |r|
    ensures ShiftedState(s, r, k)
    decreases k
  {
    if k == 0 {
      ShiftedStateStart(s, r);
    } else {
      RemoveShiftedState(s, r, k - 1);
      ShiftedStateNext(s, r, k);
    }
  }

  /** Pass `k` removes `r[k] - k` when that index is in range. */
  lemma {:induction false} RemoveShiftedUnfold<X>(s: seq<X>, r: seq<int>, k: nat)
    requires k < |r| && 0 <= r[k] - k < |RemoveShifted(s, r, k)|
    ensures RemoveShifted(s, r, k + 1)
      == RemoveShifted(s, r, k)[..r[k] - k] + RemoveShifted(s, r, k)[r[k] - k + 1..]
  {
    var prev := RemoveShifted(s, r, k);
    assert RemoveShifted(s, r, k + 1) == prev[..r[k] - k] + prev[r[k] - k + 1..];
  }

  /** Every pass of the loop removes an index in range, which takes it to the next pass. */
  lemma {:induction false} RemoveShiftedInRange<X>(s: seq<X>, r: seq<int>, k: nat)
    requires IncreasingWithin(r, |s|) && k < |r|
    ensures 0 <= r[k] - k < |RemoveShifted(s, r, k)|
    ensures RemoveShifted(s, r, k + 1)
      == RemoveShifted(s, r, k)[..r[k] - k] + RemoveShifted(s, r, k)[r[k] - k + 1..]
  {
    RemoveShiftedState(s, r, k);
    RemoveShiftedUnfold(s, r, k);
  }

  /** Once every listed index is used, exactly the unlisted elements are left, in order. */
  lemma {:induction false} RemoveShiftedAll<X>(s: seq<X>, r: seq<int>)
    requires IncreasingWithin(r, |s|)
    ensures RemoveShifted(s, r, |r|) == KeptPrefix(s, r, |s|)
  {
    RemoveShiftedState(s, r, |r|);
    assert s[|s|..] == [];
  }
}
