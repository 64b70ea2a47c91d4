/**
 * The specification of Tokenize/TokenCollection.cs: what each operation of
 * `TokenCollection<T>` computes, as functions of the token list, and what is proved
 * about them.  The class in `TokenCollections` is proved against these functions.
 */
module TokenLists {
  import opened Wrappers
  import opened Tokens
  import opened ShiftedRemovals

  /** `ArgumentOutOfRangeException`, thrown by the list indexer `this[index]`. */
  datatype IndexFault = ArgumentOutOfRange(index: int)

  function Max(a: int, b: int): int { if a < b then b else a }

  function Min(a: int, b: int): int { if a < b then a else b }

  /** The number of tokens of `tokenType`. */
  function CountType<T(==)>(s: seq<Token<T>>, tokenType: T): (n: nat)
    ensures n <= |s|
  {
    if s == [] then 0
    else CountType(s[..|s| - 1], tokenType) + (if s[|s| - 1].tokenType == tokenType then 1 else 0)
  }

  /*
   * RemoveType
   */

  /** `RemoveAll(token => token.Type.Equals(tokenType))`: the other tokens, in their order. */
  function WithoutType<T(==)>(s: seq<Token<T>>, tokenType: T): (r: seq<Token<T>>)
    ensures |r| == |s| - CountType(s, tokenType)
  {
    if s == [] then []
    else WithoutType(s[..|s| - 1], tokenType) + (if s[|s| - 1].tokenType == tokenType then [] else [s[|s| - 1]])
  }

  /** Every token of `tokenType` is removed. */
  lemma {:induction false} WithoutTypeDropsType<T>(s: seq<Token<T>>, tokenType: T)
    ensures forall i :: 0 <= i < |WithoutType(s, tokenType)| ==> WithoutType(s, tokenType)[i].tokenType != tokenType
    decreases |s|
  {
    if s != [] {
      WithoutTypeDropsType(s[..|s| - 1], tokenType);
    }
  }

  /** A token of another type occurs as often as in `s`; one of `tokenType` not at all. */
  lemma {:induction false} WithoutTypeCount<T>(s: seq<Token<T>>, tokenType: T, tok: Token<T>)
    ensures multiset(WithoutType(s, tokenType))[tok]
      == if tok.tokenType == tokenType then 0 else multiset(s)[tok]
    decreases |s|
  {
    if s != [] {
      var front, x := s[..|s| - 1], s[|s| - 1];
      WithoutTypeCount(front, tokenType, tok);
      var tail: seq<Token<T>> := if x.tokenType == tokenType then [] else [x];
      assert WithoutType(s, tokenType) == WithoutType(front, tokenType) + tail;
      MultisetCountAppend(WithoutType(front, tokenType), tail, tok);
      FrontThenLast(s);
      MultisetCountAppend(front, [x], tok);
    }
  }

  /** A non-empty list is its front followed by its last element. */
  lemma {:induction false} FrontThenLast<X>(s: seq<X>)
    requires s != []
    ensures s == s[..|s| - 1] + [s[|s| - 1]]
  {
    assert s[..|s| - 1] + [s[|s| - 1]] == s[..|s| - 1] + s[|s| - 1..];
  }

  /** Occurrences in `a + b` are those in `a` plus those in `b`. */
  lemma {:induction false} MultisetCountAppend<X>(a: seq<X>, b: seq<X>, x: X)
    ensures multiset(a + b)[x] == multiset(a)[x] + multiset(b)[x]
  {
    assert multiset(a + b) == multiset(a) + multiset(b);
  }

  /** Every other token is kept as often as it occurs, and none is added. */
  lemma {:induction false} WithoutTypeKeepsOthers<T>(s: seq<Token<T>>, tokenType: T)
    ensures forall tok: Token<T> | tok.tokenType != tokenType ::
      multiset(WithoutType(s, tokenType))[tok] == multiset(s)[tok]
    ensures forall tok: Token<T> | tok.tokenType == tokenType :: multiset(WithoutType(s, tokenType))[tok] == 0
  {
    forall tok: Token<T> {
      WithoutTypeCount(s, tokenType, tok);
    }
  }

  /** No token of `tokenType` is left exactly when none was there. */
  lemma {:induction false} CountTypeZero<T>(s: seq<Token<T>>, tokenType: T)
    ensures CountType(s, tokenType) == 0 <==> forall i :: 0 <= i < |s| ==> s[i].tokenType != tokenType
    decreases |s|
  {
    if s != [] {
      CountTypeZero(s[..|s| - 1], tokenType);
    }
  }

  /** Removal works piecewise: the survivors of `a + b` are those of `a`, then those of `b`. */
  lemma {:induction false} WithoutTypeAppend<T>(a: seq<Token<T>>, b: seq<Token<T>>, tokenType: T)
    ensures WithoutType(a + b, tokenType) == WithoutType(a, tokenType) + WithoutType(b, tokenType)
    decreases |b|
  {
    if b == [] {
      assert a + b == a;
    } else {
      var b', x := b[..|b| - 1], b[|b| - 1];
      assert (a + b)[..|a + b| - 1] == a + b' && (a + b)[|a + b| - 1] == x;
      WithoutTypeAppend(a, b', tokenType);
    }
  }

  /** A list without tokens of `tokenType` is left as it is. */
  lemma {:induction false} WithoutTypeOfOthers<T>(s: seq<Token<T>>, tokenType: T)
    requires forall i :: 0 <= i < |s| ==> s[i].tokenType != tokenType
    ensures WithoutType(s, tokenType) == s
    decreases |s|
  {
    if s != [] {
      WithoutTypeOfOthers(s[..|s| - 1], tokenType);
    }
  }

  /*
   * IndexOfType
   */

  /**
   * The loop `for (i = index; i < bound; i++) if (this[i].Type.Equals(tokenType)) return i;`
   * followed by `return -1`, where the indexer throws for `i` outside the list.
   */
  function Scan<T(==)>(s: seq<Token<T>>, tokenType: T, i: int, bound: int): Result<int, IndexFault>
    decreases bound - i
  {
    if i >= bound then Success(-1)
    else if i < 0 || i >= |s| then Failure(ArgumentOutOfRange(i))
    else if s[i].tokenType == tokenType then Success(i)
    else Scan(s, tokenType, i + 1, bound)
  }

  /**
   * A scan that stays inside the list never throws; it returns -1 exactly when no token of
   * `tokenType` lies in `[i, bound)`, and otherwise the least index of one.
   */
  lemma {:induction false} ScanWithinList<T>(s: seq<Token<T>>, tokenType: T, i: int, bound: int)
    requires 0 <= i && bound <= |s|
    ensures Scan(s, tokenType, i, bound).Success?
    ensures var r := Scan(s, tokenType, i, bound).value;
      && (r == -1 <==> forall j :: i <= j < bound ==> s[j].tokenType != tokenType)
      && (r != -1 ==> i <= r < bound && s[r].tokenType == tokenType
                      && forall j :: i <= j < r ==> s[j].tokenType != tokenType)
    decreases bound - i
  {
    if i < bound && s[i].tokenType != tokenType {
      ScanWithinList(s, tokenType, i + 1, bound);
    }
  }

  /**
   * A scan whose bound lies past the end of the list and that finds no token of
   * `tokenType` before the end throws at the first index past the end it reaches.
   */
  lemma {:induction false} ScanPastEnd<T>(s: seq<Token<T>>, tokenType: T, i: int, bound: int)
    requires 0 <= i < bound && |s| < bound
    requires forall j :: i <= j < |s| ==> s[j].tokenType != tokenType
    ensures Scan(s, tokenType, i, bound) == Failure(ArgumentOutOfRange(Max(i, |s|)))
    decreases bound - i
  {
    if i < |s| {
      ScanPastEnd(s, tokenType, i + 1, bound);
    }
  }

  /**
   * `IndexOfType(type, index, count)` as written loops while `i < Count || i < index + count`.
   * A count that stops short of the end does not stop the search, and one that reaches past
   * the end makes the indexer throw.
   */
  lemma {:induction false} IndexOfTypeIgnoresCount<T>(a: T, b: T)
    requires a != b
    ensures Scan([Token(a, ""), Token(b, "")], b, 0, Max(2, 0 + 1)) == Success(1)
    ensures Scan([Token(a, "")], b, 0, Max(1, 0 + 5)) == Failure(ArgumentOutOfRange(1))
  {
    var s2 := [Token(a, ""), Token(b, "")];
    assert Scan(s2, b, 1, 2) == Success(1);
    var s1 := [Token(a, "")];
    assert Scan(s1, b, 1, 5) == Failure(ArgumentOutOfRange(1));
  }

  /**
   * The evidently intended loop `i < Count && i < index + count`: for a non-negative
   * `index` it never throws, and finds the least index of `tokenType` in
   * `[index, index + count)` that lies in the list, or -1.
   */
  lemma {:induction false} BoundedScanFinds<T>(s: seq<Token<T>>, tokenType: T, index: int, count: int)
    requires 0 <= index
    ensures Scan(s, tokenType, index, Min(|s|, index + count)).Success?
    ensures Scan(s, tokenType, index, Min(|s|, index + count)).value == -1
      <==> forall j :: index <= j < index + count && j < |s| ==> s[j].tokenType != tokenType
    ensures Scan(s, tokenType, index, Min(|s|, index + count)).value != -1 ==>
      && index <= Scan(s, tokenType, index, Min(|s|, index + count)).value < Min(|s|, index + count)
      && s[Scan(s, tokenType, index, Min(|s|, index + count)).value].tokenType == tokenType
      && forall j :: index <= j < Scan(s, tokenType, index, Min(|s|, index + count)).value
           ==> s[j].tokenType != tokenType
  {
    ScanWithinList(s, tokenType, index, Min(|s|, index + count));
  }

  /*
   * CollapseType
   */

  /** Token `j` follows a token of `tokenType` and has that type too: `CollapseType` drops it. */
  predicate IsRunTail<T(==)>(s: seq<Token<T>>, tokenType: T, j: int)
  {
    1 <= j < |s| && s[j - 1].tokenType == tokenType && s[j].tokenType == tokenType
  }

  /** The tokens of `s[..n]` that are not run tails, in order. */
  function CollapsedPrefix<T(==)>(s: seq<Token<T>>, tokenType: T, n: int): (r: seq<Token<T>>)
    requires 0 <= n <= |s|
    ensures |r| <= n
    decreases n
  {
    if n == 0 then []
    else CollapsedPrefix(s, tokenType, n - 1) + (if IsRunTail(s, tokenType, n - 1) then [] else [s[n - 1]])
  }

  /**
   * `CollapseType`: every token that is not a run tail, in order; of each run of
   * `tokenType` only its first token is left.
   */
  function Collapse<T(==)>(s: seq<Token<T>>, tokenType: T): (r: seq<Token<T>>)
    ensures |r| <= |s|
  {
    CollapsedPrefix(s, tokenType, |s|)
  }

  /** The last token left of `s[..n]` has the type of `s[n - 1]`. */
  lemma {:induction false} CollapsedPrefixLast<T>(s: seq<Token<T>>, tokenType: T, n: int)
    requires 1 <= n <= |s|
    ensures |CollapsedPrefix(s, tokenType, n)| > 0
    ensures CollapsedPrefix(s, tokenType, n)[|CollapsedPrefix(s, tokenType, n)| - 1].tokenType == s[n - 1].tokenType
    decreases n
  {
    if IsRunTail(s, tokenType, n - 1) {
      CollapsedPrefixLast(s, tokenType, n - 1);
    }
  }

  /** No two adjacent tokens left of `s[..n]` both have `tokenType`. */
  lemma {:induction false} CollapsedPrefixPairFree<T>(s: seq<Token<T>>, tokenType: T, n: int)
    requires 0 <= n <= |s|
    ensures forall j :: !IsRunTail(CollapsedPrefix(s, tokenType, n), tokenType, j)
    decreases n
  {
    if n > 0 {
      CollapsedPrefixPairFree(s, tokenType, n - 1);
      if !IsRunTail(s, tokenType, n - 1) {
        var c := CollapsedPrefix(s, tokenType, n - 1);
        var r := c + [s[n - 1]];
        if n >= 2 {
          CollapsedPrefixLast(s, tokenType, n - 1);
        }
        forall j ensures !IsRunTail(r, tokenType, j) {
          if j < |c| {
            assert IsRunTail(r, tokenType, j) == IsRunTail(c, tokenType, j);
          }
        }
        assert CollapsedPrefix(s, tokenType, n) == r;
      } else {
        assert CollapsedPrefix(s, tokenType, n) == CollapsedPrefix(s, tokenType, n - 1);
      }
    }
  }

  /** After collapsing, no two adjacent tokens both have `tokenType`. */
  lemma {:induction false} CollapsePairFree<T>(s: seq<Token<T>>, tokenType: T)
    ensures forall j :: !IsRunTail(Collapse(s, tokenType), tokenType, j)
  {
    CollapsedPrefixPairFree(s, tokenType, |s|);
  }

  /** Of `s[..n]`, only tokens of `tokenType` are dropped. */
  lemma {:induction false} CollapsedPrefixKeepsOthers<T>(s: seq<Token<T>>, tokenType: T, n: int)
    requires 0 <= n <= |s|
    ensures WithoutType(CollapsedPrefix(s, tokenType, n), tokenType) == WithoutType(s[..n], tokenType)
    decreases n
  {
    if n > 0 {
      CollapsedPrefixKeepsOthers(s, tokenType, n - 1);
      CollapsedPrefixKeepsOthersStep(s, tokenType, n);
    } else {
      assert s[..0] == [];
    }
  }

  /** The token `CollapsedPrefix` appends at `n - 1` has the same non-`tokenType` part as `s[n - 1]`. */
  lemma {:induction false} CollapsedPrefixKeepsOthersStep<T>(s: seq<Token<T>>, tokenType: T, n: int)
    requires 1 <= n <= |s|
    ensures WithoutType(CollapsedPrefix(s, tokenType, n), tokenType)
      == WithoutType(CollapsedPrefix(s, tokenType, n - 1), tokenType) + WithoutType([s[n - 1]], tokenType)
    ensures WithoutType(s[..n], tokenType) == WithoutType(s[..n - 1], tokenType) + WithoutType([s[n - 1]], tokenType)
  {
    var x := s[n - 1];
    var tail: seq<Token<T>> := if IsRunTail(s, tokenType, n - 1) then [] else [x];
    WithoutTypeAppend(CollapsedPrefix(s, tokenType, n - 1), tail, tokenType);
    assert s[..n] == s[..n - 1] + [x];
    WithoutTypeAppend(s[..n - 1], [x], tokenType);
    if IsRunTail(s, tokenType, n - 1) {
      assert WithoutType([x], tokenType) == [] by {
        assert [x][..0] == [];
      }
    }
  }

  /** Collapsing drops only tokens of `tokenType`: all the others stay, in order. */
  lemma {:induction false} CollapseKeepsOthers<T>(s: seq<Token<T>>, tokenType: T)
    ensures WithoutType(Collapse(s, tokenType), tokenType) == WithoutType(s, tokenType)
  {
    CollapsedPrefixKeepsOthers(s, tokenType, |s|);
    assert s[..|s|] == s;
  }

  /** Tokens that are not run tails are appended to the collapsed prefix one by one. */
  lemma {:induction false} CollapseExtend<T>(s: seq<Token<T>>, tokenType: T, a: int, b: int)
    requires 0 <= a <= b <= |s|
    requires forall j :: a <= j < b ==> !IsRunTail(s, tokenType, j)
    ensures CollapsedPrefix(s, tokenType, b) == CollapsedPrefix(s, tokenType, a) + s[a..b]
    decreases b - a
  {
    if a < b {
      CollapseExtend(s, tokenType, a, b - 1);
      assert s[a..b] == s[a..b - 1] + [s[b - 1]];
    } else {
      assert s[a..b] == [];
    }
  }

  /** A list without two adjacent tokens of `tokenType` is not changed by collapsing. */
  lemma {:induction false} CollapseOfPairFree<T>(s: seq<Token<T>>, tokenType: T)
    requires forall j :: !IsRunTail(s, tokenType, j)
    ensures Collapse(s, tokenType) == s
  {
    CollapseExtend(s, tokenType, 0, |s|);
    assert s[0..|s|] == s;
  }

  /** Collapsing twice is collapsing once. */
  lemma {:induction false} CollapseIdempotent<T>(s: seq<Token<T>>, tokenType: T)
    ensures Collapse(Collapse(s, tokenType), tokenType) == Collapse(s, tokenType)
  {
    CollapsePairFree(s, tokenType);
    CollapseOfPairFree(Collapse(s, tokenType), tokenType);
  }

  /**
   * The indices `1 <= j < n` of run tails, increasing: what the first loop of
   * `CollapseType` collects.
   */
  function RunTails<T(==)>(s: seq<Token<T>>, tokenType: T, n: int): (r: seq<int>)
    ensures forall k :: 0 <= k < |r| ==> IsRunTail(s, tokenType, r[k]) && r[k] < n
    decreases n
  {
    if n <= 1 then []
    else RunTails(s, tokenType, n - 1) + (if IsRunTail(s, tokenType, n - 1) then [n - 1] else [])
  }

  /** Every run tail below `n` is collected, and the indices are strictly increasing. */
  lemma {:induction false} RunTailsComplete<T>(s: seq<Token<T>>, tokenType: T, n: int)
    ensures forall j :: 1 <= j < n && IsRunTail(s, tokenType, j) ==> j in RunTails(s, tokenType, n)
    ensures forall k, l :: 0 <= k < l < |RunTails(s, tokenType, n)| ==> RunTails(s, tokenType, n)[k] < RunTails(s, tokenType, n)[l]
    decreases n
  {
    if n > 1 {
      RunTailsComplete(s, tokenType, n - 1);
    }
  }

  /** The collected run tails are increasing indices into `s`. */
  lemma {:induction false} RunTailsIncreasing<T>(s: seq<Token<T>>, tokenType: T)
    ensures IncreasingWithin(RunTails(s, tokenType, |s|), |s|)
  {
    RunTailsComplete(s, tokenType, |s|);
  }

  /** Dropping the run tails is dropping the collected indices. */
  lemma {:induction false} CollapsedPrefixDropsListed<T>(s: seq<Token<T>>, tokenType: T, n: int)
    requires 0 <= n <= |s|
    ensures CollapsedPrefix(s, tokenType, n) == KeptPrefix(s, RunTails(s, tokenType, |s|), n)
    decreases n
  {
    if n > 0 {
      var r := RunTails(s, tokenType, |s|);
      CollapsedPrefixDropsListed(s, tokenType, n - 1);
      RunTailsComplete(s, tokenType, |s|);
      if n - 1 in r {
        var a :| 0 <= a < |r| && r[a] == n - 1;
        assert IsRunTail(s, tokenType, r[a]);
      }
      assert (n - 1 in r) == IsRunTail(s, tokenType, n - 1);
    }
  }

  /**
   * The removal loop of `CollapseType`, run over every collected index, leaves the
   * collapsed list.
   */
  lemma {:induction false} CollapseByRemovals<T>(s: seq<Token<T>>, tokenType: T)
    ensures RemoveShifted(s, RunTails(s, tokenType, |s|), |RunTails(s, tokenType, |s|)|) == Collapse(s, tokenType)
  {
    RunTailsIncreasing(s, tokenType);
    RemoveShiftedAll(s, RunTails(s, tokenType, |s|));
    CollapsedPrefixDropsListed(s, tokenType, |s|);
  }

  /*
   * Segment
   */

  /**
   * `Segment(start, last)`: the tokens from `start` to `last`, both inclusive, cut at the
   * end of the list; the indexer throws when the first index tried is negative.
   */
  function SegmentOf<T>(s: seq<Token<T>>, start: int, last: int): (r: Result<seq<Token<T>>, IndexFault>)
    ensures r.Failure? <==> start < 0 && start <= last
    ensures r.Failure? ==> r.error == ArgumentOutOfRange(start)
    ensures r.Success? ==>
      && |r.value| == (if last < start || |s| <= start then 0 else Min(last + 1, |s|) - start)
      && forall j :: 0 <= j < |r.value| ==> r.value[j] == s[start + j]
  {
    if start < 0 && start <= last then Failure(ArgumentOutOfRange(start))
    else if last < start || |s| <= start then Success([])
    else Success(s[start..Min(last + 1, |s|)])
  }

  /*
   * Split
   */

  /**
   * `Split(tokenType)`: the tokens between separators of `tokenType`, the separators
   * dropped; a new, empty part is opened at every separator.
   */
  function SplitParts<T(==)>(s: seq<Token<T>>, tokenType: T): (parts: seq<seq<Token<T>>>)
    ensures |parts| == CountType(s, tokenType) + 1
  {
    if s == [] then [[]]
    else
      var parts := SplitParts(s[..|s| - 1], tokenType);
      var x := s[|s| - 1];
      if x.tokenType == tokenType then parts + [[]]
      else parts[..|parts| - 1] + [parts[|parts| - 1] + [x]]
  }

  /** One more token either opens a new part or joins the last one. */
  lemma {:induction false} SplitPartsSnoc<T>(s: seq<Token<T>>, tokenType: T, i: int)
    requires 0 <= i < |s|
    ensures s[i].tokenType == tokenType ==>
      SplitParts(s[..i + 1], tokenType) == SplitParts(s[..i], tokenType) + [[]]
    ensures s[i].tokenType != tokenType ==>
      SplitParts(s[..i + 1], tokenType)
      == SplitParts(s[..i], tokenType)[..|SplitParts(s[..i], tokenType)| - 1]
         + [SplitParts(s[..i], tokenType)[|SplitParts(s[..i], tokenType)| - 1] + [s[i]]]
  {
    assert s[..i + 1][..i] == s[..i];
  }

  /** No part holds a separator. */
  lemma {:induction false} SplitPartsFreeOfSeparators<T>(s: seq<Token<T>>, tokenType: T)
    ensures forall i, j ::
              0 <= i < |SplitParts(s, tokenType)| && 0 <= j < |SplitParts(s, tokenType)[i]|
              ==> SplitParts(s, tokenType)[i][j].tokenType != tokenType
    decreases |s|
  {
    if s != [] {
      var front, x := s[..|s| - 1], s[|s| - 1];
      SplitPartsFreeOfSeparators(front, tokenType);
      var parts: seq<seq<Token<T>>> := SplitParts(front, tokenType);
      assert forall i, j :: 0 <= i < |parts| && 0 <= j < |parts[i]| ==> parts[i][j].tokenType != tokenType;
      if x.tokenType != tokenType {
        var grown: seq<seq<Token<T>>> := parts[..|parts| - 1] + [parts[|parts| - 1] + [x]];
        forall i, j | 0 <= i < |grown| && 0 <= j < |grown[i]| ensures grown[i][j].tokenType != tokenType {
          if i < |parts| - 1 {
            assert grown[i] == parts[i];
            assert parts[i][j].tokenType != tokenType;
          } else {
            assert grown[i] == parts[|parts| - 1] + [x];
            if j < |parts[|parts| - 1]| {
              assert grown[i][j] == parts[|parts| - 1][j];
              assert parts[|parts| - 1][j].tokenType != tokenType;
            } else {
              assert grown[i][j] == x;
              assert x.tokenType != tokenType;
            }
          }
        }
      }
    }
  }

  /** The parts laid end to end. */
  function Concat<T>(parts: seq<seq<T>>): seq<T>
  {
    if parts == [] then [] else Concat(parts[..|parts| - 1]) + parts[|parts| - 1]
  }

  /** Laid end to end, the parts of a split are the list with its separators removed. */
  lemma {:induction false} SplitPartsConcat<T>(s: seq<Token<T>>, tokenType: T)
    ensures Concat(SplitParts(s, tokenType)) == WithoutType(s, tokenType)
    decreases |s|
  {
    if s != [] {
      var front, x := s[..|s| - 1], s[|s| - 1];
      var parts: seq<seq<Token<T>>> := SplitParts(front, tokenType);
      SplitPartsConcat(front, tokenType);
      if x.tokenType == tokenType {
        var grown := parts + [[]];
        assert grown[..|grown| - 1] == parts;
      } else {
        var init, last := parts[..|parts| - 1], parts[|parts| - 1];
        var grown := init + [last + [x]];
        assert grown[..|grown| - 1] == init;
        assert parts[..|parts| - 1] == init;
      }
    }
  }

  /*
   * StartsWith, EndsWith, TrimStart, TrimEnd
   */

  /** `StartsWith(tokenType)`. */
  predicate StartsWithType<T(==)>(s: seq<Token<T>>, tokenType: T)
  {
    |s| > 0 && s[0].tokenType == tokenType
  }

  /** `EndsWith(tokenType)`. */
  predicate EndsWithType<T(==)>(s: seq<Token<T>>, tokenType: T)
  {
    |s| > 0 && s[|s| - 1].tokenType == tokenType
  }

  /** The length of the longest prefix made only of tokens of `tokenType`. */
  function LeadingRun<T(==)>(s: seq<Token<T>>, tokenType: T): (n: nat)
    ensures n <= |s|
    ensures forall i :: 0 <= i < n ==> s[i].tokenType == tokenType
    ensures n < |s| ==> s[n].tokenType != tokenType
  {
    if s == [] || s[0].tokenType != tokenType then 0 else 1 + LeadingRun(s[1..], tokenType)
  }

  /** The length of the longest suffix made only of tokens of `tokenType`. */
  function TrailingRun<T(==)>(s: seq<Token<T>>, tokenType: T): (n: nat)
    ensures n <= |s|
    ensures forall i :: |s| - n <= i < |s| ==> s[i].tokenType == tokenType
    ensures n < |s| ==> s[|s| - 1 - n].tokenType != tokenType
  {
    if s == [] || s[|s| - 1].tokenType != tokenType then 0 else 1 + TrailingRun(s[..|s| - 1], tokenType)
  }

  /** Dropping the leading run leaves a list that does not start with `tokenType`. */
  lemma {:induction false} TrimStartClears<T>(s: seq<Token<T>>, tokenType: T)
    ensures !StartsWithType(s[LeadingRun(s, tokenType)..], tokenType)
    ensures StartsWithType(s, tokenType) <==> LeadingRun(s, tokenType) > 0
  {
  }

  /** The tokens at odd offsets, `r[1], r[3], ...`: what `TrimEnd` leaves of the trailing run. */
  function Odds<T>(r: seq<T>): (o: seq<T>)
    ensures |o| == |r| / 2 && forall i :: 0 <= i < |o| ==> o[i] == r[2 * i + 1]
  {
    seq(|r| / 2, i requires 0 <= i < |r| / 2 => r[2 * i + 1])
  }

  /** The list `TrimEnd` leaves: everything before the trailing run, then every second token of the run. */
  function TrimEndAsWritten<T(==)>(s: seq<Token<T>>, tokenType: T): seq<Token<T>>
  {
    var k := TrailingRun(s, tokenType);
    s[..|s| - k] + Odds(s[|s| - k..])
  }

  /**
   * The list in the second loop of `TrimEnd` after `d` removals: the prefix, every second
   * token of the first `2d` tokens of the run, and the rest of the run.
   */
  function TrimEndAfter<T>(pre: seq<T>, run: seq<T>, d: nat): seq<T>
  {
    pre + Odds(run[..Min(2 * d, |run|)]) + run[Min(2 * d, |run|)..]
  }

  /** Two more tokens of the run seen: one more odd-offset token is kept. */
  lemma {:induction false} OddsStep<T>(r: seq<T>, d: nat)
    requires 2 * d < |r|
    ensures Odds(r[..Min(2 * d + 2, |r|)]) == Odds(r[..2 * d]) + r[2 * d + 1..Min(2 * d + 2, |r|)]
  {
    var m := Min(2 * d + 2, |r|);
    var a, b := Odds(r[..m]), Odds(r[..2 * d]);
    if m == 2 * d + 2 {
      assert |a| == d + 1;
      forall i | 0 <= i < d + 1
        ensures a[i] == (b + [r[2 * d + 1]])[i]
      {
        assert a[i] == r[..m][2 * i + 1];
      }
      assert r[2 * d + 1..m] == [r[2 * d + 1]];
    } else {
      assert |a| == d;
      forall i | 0 <= i < d
        ensures a[i] == b[i]
      {
        assert a[i] == r[..m][2 * i + 1];
      }
      assert r[2 * d + 1..m] == [];
    }
  }

  /** Each removal at index `|pre| + d` takes the list one step further. */
  lemma {:induction false} TrimEndAfterStep<T>(pre: seq<T>, run: seq<T>, d: nat, current: seq<T>, i: int)
    requires 2 * d < |run| && i == |pre| + d
    requires current == TrimEndAfter(pre, run, d)
    ensures |current| == |pre| + |run| - d && i < |current|
    ensures current[..i] + current[i + 1..] == TrimEndAfter(pre, run, d + 1)
  {
    var m := Min(2 * d + 2, |run|);
    var o := Odds(run[..2 * d]);
    OddsStep(run, d);
    assert current == (pre + o) + run[2 * d..];
    assert current[..i] == pre + o;
    assert current[i + 1..] == run[2 * d + 1..];
    assert run[2 * d + 1..] == run[2 * d + 1..m] + run[m..];
  }

  /**
   * The list after the first `d` passes of `for (i = from; i < Count; i++) RemoveAt(i)`:
   * pass `j` removes at `from + j` while that index is inside the list.
   */
  function RemovalsFrom<T>(s: seq<T>, from: nat, d: nat): seq<T>
  {
    if d == 0 then s
    else
      var t := RemovalsFrom(s, from, d - 1);
      if from + d - 1 < |t| then t[..from + d - 1] + t[from + d..] else t
  }

  /** Pass `d` removes at `from + d - 1` when that index is inside the list. */
  lemma {:induction false} RemovalsFromUnfold<T>(s: seq<T>, from: nat, d: nat)
    requires d > 0 && from + d - 1 < |RemovalsFrom(s, from, d - 1)|
    ensures RemovalsFrom(s, from, d)
      == RemovalsFrom(s, from, d - 1)[..from + d - 1] + RemovalsFrom(s, from, d - 1)[from + d..]
  {
    var t := RemovalsFrom(s, from, d - 1);
    assert RemovalsFrom(s, from, d) == t[..from + d - 1] + t[from + d..];
  }

  /** One more pass over the run removes the token after the one just kept. */
  lemma {:induction false} RemovalsFromRunNext<T>(pre: seq<T>, run: seq<T>, d: nat)
    requires 0 < d && 2 * d <= |run| + 1
    requires RemovalsFrom(pre + run, |pre|, d - 1) == TrimEndAfter(pre, run, d - 1)
    ensures RemovalsFrom(pre + run, |pre|, d) == TrimEndAfter(pre, run, d)
    ensures |TrimEndAfter(pre, run, d)| == |pre| + |run| - d
  {
    var t := RemovalsFrom(pre + run, |pre|, d - 1);
    TrimEndAfterStep(pre, run, d - 1, t, |pre| + d - 1);
    RemovalsFromUnfold(pre + run, |pre|, d);
  }

  /** While the loop runs, it keeps every second token of the part of the run it has passed. */
  lemma {:induction false} RemovalsFromRun<T>(pre: seq<T>, run: seq<T>, d: nat)
    requires 2 * d <= |run| + 1
    ensures RemovalsFrom(pre + run, |pre|, d) == TrimEndAfter(pre, run, d)
    decreases d
  {
    if d == 0 {
      assert run[..0] == [] && run[0..] == run;
    } else {
      RemovalsFromRun(pre, run, d - 1);
      RemovalsFromRunNext(pre, run, d);
    }
  }

  /**
   * The two loops of `TrimEnd` together: counting the trailing run and removing upwards
   * from its start leave the prefix and every second token of the run.
   */
  lemma {:induction false} TrimEndByRemovals<T>(s: seq<Token<T>>, tokenType: T)
    ensures RemovalsFrom(s, |s| - TrailingRun(s, tokenType), (TrailingRun(s, tokenType) + 1) / 2)
      == TrimEndAsWritten(s, tokenType)
  {
    RemovalsFromTail(s, TrailingRun(s, tokenType));
  }

  /** Passes from the start of the last `k` elements keep every second one of them. */
  lemma {:induction false} RemovalsFromTail<T>(s: seq<T>, k: int)
    requires 0 <= k <= |s|
    ensures RemovalsFrom(s, |s| - k, (k + 1) / 2) == s[..|s| - k] + Odds(s[|s| - k..])
  {
    var pre, run := s[..|s| - k], s[|s| - k..];
    assert s == pre + run;
    RemovalsFromWholeRun(pre, run);
  }

  /** Passes over the whole run keep the prefix and every second token of the run. */
  lemma {:induction false} RemovalsFromWholeRun<T>(pre: seq<T>, run: seq<T>)
    ensures RemovalsFrom(pre + run, |pre|, (|run| + 1) / 2) == pre + Odds(run)
  {
    var d := (|run| + 1) / 2;
    RemovalsFromRun(pre, run, d);
    assert Min(2 * d, |run|) == |run|;
    assert run[..|run|] == run && run[|run|..] == [];
  }

  /**
   * A prefix that does not end with `tokenType`, followed by every second token of a run
   * of `tokenType`: the prefix is kept, half the run (rounded down) follows, and the whole
   * ends with `tokenType` exactly when the run had two tokens or more.
   */
  lemma {:induction false} PrefixThenOdds<T>(pre: seq<Token<T>>, run: seq<Token<T>>, tokenType: T)
    requires forall i :: 0 <= i < |run| ==> run[i].tokenType == tokenType
    requires |pre| > 0 ==> pre[|pre| - 1].tokenType != tokenType
    ensures |pre + Odds(run)| == |pre| + |run| / 2
    ensures (pre + Odds(run))[..|pre|] == pre
    ensures EndsWithType(pre + Odds(run), tokenType) <==> |run| >= 2
  {
    var o := Odds(run);
    var r := pre + o;
    assert r[..|pre|] == pre;
    if |run| >= 2 {
      var m := |o| - 1;
      assert 2 * m + 1 < |run|;
      assert r[|r| - 1] == o[m];
      assert o[m].tokenType == tokenType;
    } else {
      assert |o| == 0;
    }
  }

  /**
   * `TrimEnd` keeps everything before the trailing run of `k` tokens of `tokenType`, but
   * removes only `ceil(k / 2)` of them, so the list still ends with `tokenType` exactly
   * when `k >= 2`.
   */
  lemma {:induction false} TrimEndRemovesHalfTheRun<T>(s: seq<Token<T>>, tokenType: T)
    ensures |s| - |TrimEndAsWritten(s, tokenType)| == (TrailingRun(s, tokenType) + 1) / 2
    ensures TrimEndAsWritten(s, tokenType)[..|s| - TrailingRun(s, tokenType)] == s[..|s| - TrailingRun(s, tokenType)]
    ensures EndsWithType(TrimEndAsWritten(s, tokenType), tokenType) <==> TrailingRun(s, tokenType) >= 2
  {
    var k := TrailingRun(s, tokenType);
    var pre, run := s[..|s| - k], s[|s| - k..];
    forall i | 0 <= i < |run|
      ensures run[i].tokenType == tokenType
    {
      assert run[i] == s[|s| - k + i];
    }
    if |pre| > 0 {
      assert pre[|pre| - 1] == s[|s| - 1 - k];
    }
    PrefixThenOdds(pre, run, tokenType);
  }

  /** Two trailing separators: `TrimEnd` removes one and leaves the other. */
  lemma {:induction false} TrimEndLeavesOneOfTwo<T>(a: Token<T>, b: Token<T>)
    requires a.tokenType == b.tokenType
    ensures TrimEndAsWritten([a, b], a.tokenType) == [b]
  {
    var s := [a, b];
    assert TrailingRun(s, a.tokenType) == 2 by {
      assert s[..1] == [a] && [a][..0] == [];
    }
  }

  /** The result of the evidently intended `TrimEnd`: the trailing run removed whole. */
  lemma {:induction false} TrimEndAllClears<T>(s: seq<Token<T>>, tokenType: T)
    ensures var r := s[..|s| - TrailingRun(s, tokenType)];
      !EndsWithType(r, tokenType) && (EndsWithType(s, tokenType) <==> |r| < |s|)
  {
  }

  /** `TrimEnd` as written keeps a list that does not start with `tokenType` that way. */
  lemma {:induction false} TrimEndKeepsStart<T>(s: seq<Token<T>>, tokenType: T)
    requires !StartsWithType(s, tokenType)
    ensures !StartsWithType(TrimEndAsWritten(s, tokenType), tokenType)
  {
    var k := TrailingRun(s, tokenType);
    if |s| - k > 0 {
      assert TrimEndAsWritten(s, tokenType)[0] == s[0];
    }
  }

  /** Removing the trailing run keeps a list that does not start with `tokenType` that way. */
  lemma {:induction false} TrimEndAllKeepsStart<T>(s: seq<Token<T>>, tokenType: T)
    requires !StartsWithType(s, tokenType)
    ensures !StartsWithType(s[..|s| - TrailingRun(s, tokenType)], tokenType)
  {
  }

  /** The list with its leading run and then its trailing run of `tokenType` removed. */
  function TrimmedBothEnds<T(==)>(s: seq<Token<T>>, tokenType: T): (r: seq<Token<T>>)
    ensures !StartsWithType(r, tokenType) && !EndsWithType(r, tokenType)
  {
    var m := s[LeadingRun(s, tokenType)..];
    TrimStartClears(s, tokenType);
    TrimEndAllKeepsStart(m, tokenType);
    TrimEndAllClears(m, tokenType);
    m[..|m| - TrailingRun(m, tokenType)]
  }

  /**
   * Trimming both ends keeps one contiguous stretch of the list, and every token outside it
   * has `tokenType`.
   */
  lemma {:induction false} TrimmedBothEndsIsCore<T>(s: seq<Token<T>>, tokenType: T)
    ensures var a := LeadingRun(s, tokenType);
      && a + |TrimmedBothEnds(s, tokenType)| <= |s|
      && TrimmedBothEnds(s, tokenType) == s[a..a + |TrimmedBothEnds(s, tokenType)|]
    ensures forall j :: 0 <= j < LeadingRun(s, tokenType) ==> s[j].tokenType == tokenType
    ensures forall j :: LeadingRun(s, tokenType) + |TrimmedBothEnds(s, tokenType)| <= j < |s| ==> s[j].tokenType == tokenType
  {
    var a := LeadingRun(s, tokenType);
    var m := s[a..];
    var k := TrailingRun(m, tokenType);
    forall j | a + |m| - k <= j < |s|
      ensures s[j].tokenType == tokenType
    {
      assert s[j] == m[j - a];
    }
  }
}
