/**
 * Model of Tokenize/TokenCollection.cs.
 *
 * `TokenCollection<T>` is a `List<Token<T>>` with helpers for tokenizing and parsing.  The
 * list is the field `tokens`, which the methods reassign.  Every operation is proved
 * against the function of `TokenLists` that specifies it.
 */
module TokenCollections {
  import opened Wrappers
  import opened Tokens
  import opened TokenLists
  import opened ShiftedRemovals

  class TokenCollection<T(==)> {
    var tokens: seq<Token<T>>

    /** `new TokenCollection<T>()`: an empty list. */
    constructor()
      ensures tokens == []
    {
      tokens := [];
    }

    /** `LastToken`: `this[Count - 1]`, which throws for index -1 when the list is empty. */
    function LastToken(): (r: Result<Token<T>, IndexFault>)
      reads this
      ensures r.Failure? <==> |tokens| == 0
      ensures r.Failure? ==> r.error == ArgumentOutOfRange(-1)
      ensures r.Success? ==> r.value == tokens[|tokens| - 1]
    {
      if |tokens| == 0 then Failure(ArgumentOutOfRange(-1)) else Success(tokens[|tokens| - 1])
    }

    /** `List.Add(token)`: the token goes at the end and becomes `LastToken`. */
    method AddToken(token: Token<T>)
      modifies this
      ensures tokens == old(tokens) + [token]
      ensures LastToken() == Success(token)
    {
      tokens := tokens + [token];
    }

    /** `List.RemoveAt(index)`, used only at indices inside the list. */
    method RemoveAt(index: int)
      requires 0 <= index < |tokens|
      modifies this
      ensures tokens == old(tokens)[..index] + old(tokens)[index + 1..]
    {
      tokens := tokens[..index] + tokens[index + 1..];
    }

    /** `Add(type, value)`. */
    method Add(tokenType: T, value: string)
      modifies this
      ensures tokens == old(tokens) + [Token(tokenType, value)]
    {
      AddToken(Token(tokenType, value));
    }

    /** `Add(type, char)`: the lexeme is the one character. */
    method AddChar(tokenType: T, value: char)
      modifies this
      ensures tokens == old(tokens) + [Token(tokenType, [value])]
    {
      AddToken(Token(tokenType, [value]));
    }

    /** `Add(type)`: the lexeme is empty. */
    method AddType(tokenType: T)
      modifies this
      ensures tokens == old(tokens) + [TypeOnly(tokenType)]
    {
      AddToken(TypeOnly(tokenType));
    }

    /** `RemoveType(type)`: `RemoveAll` of the tokens of that type. */
    method RemoveType(tokenType: T)
      modifies this
      ensures tokens == WithoutType(old(tokens), tokenType)
    {
      tokens := WithoutType(tokens, tokenType);
    }

    /**
     * `IndexOfType(type, index, count)` as written: the loop runs while
     * `i < Count || i < index + count`, and the indexer throws at an index outside the list.
     */
    method IndexOfTypeWithin(tokenType: T, index: int, count: int) returns (r: Result<int, IndexFault>)
      ensures r == Scan(tokens, tokenType, index, Max(|tokens|, index + count))
    {
      ghost var bound := Max(|tokens|, index + count);
      var i := index;
      while i < |tokens| || i < index + count
        invariant Scan(tokens, tokenType, i, bound) == Scan(tokens, tokenType, index, bound)
        decreases bound - i
      {
        if i < 0 || i >= |tokens| {
          return Failure(ArgumentOutOfRange(i));
        }
        if tokens[i].tokenType == tokenType {
          return Success(i);
        }
        i := i + 1;
      }
      return Success(-1);
    }

    /**
     * `IndexOfType(type, index, count)` with the evidently intended `&&`: the search stops at
     * the end of the list and after `count` tokens.
     */
    method IndexOfTypeBounded(tokenType: T, index: int, count: int) returns (r: Result<int, IndexFault>)
      ensures r == Scan(tokens, tokenType, index, Min(|tokens|, index + count))
      ensures index >= 0 ==> r.Success?
    {
      ghost var bound := Min(|tokens|, index + count);
      var i := index;
      while i < |tokens| && i < index + count
        invariant Scan(tokens, tokenType, i, bound) == Scan(tokens, tokenType, index, bound)
        invariant index >= 0 ==> 0 <= i
        decreases bound - i
      {
        if i < 0 {
          return Failure(ArgumentOutOfRange(i));
        }
        if tokens[i].tokenType == tokenType {
          return Success(i);
        }
        i := i + 1;
      }
      if index >= 0 {
        BoundedScanFinds(tokens, tokenType, index, count);
      }
      return Success(-1);
    }

    /**
     * `IndexOfType(type, index)`: searches from `index` to the end.  It throws exactly when
     * `index` is negative; otherwise it returns the least index at or after `index` whose
     * token has `tokenType`, or -1 when there is none.  With `count = Count - index` the
     * loop condition `i < Count || i < index + count` is `i < Count`, so the search stops at
     * the end of the list.
     */
    method IndexOfTypeFrom(tokenType: T, index: int) returns (r: Result<int, IndexFault>)
      ensures r.Failure? <==> index < 0
      ensures r.Failure? ==> r.error == ArgumentOutOfRange(index)
      ensures r.Success? ==>
        && (r.value == -1 <==> forall j :: index <= j < |tokens| ==> tokens[j].tokenType != tokenType)
        && (r.value != -1 ==>
              && index <= r.value < |tokens| && tokens[r.value].tokenType == tokenType
              && forall j :: index <= j < r.value ==> tokens[j].tokenType != tokenType)
    {
      r := IndexOfTypeWithin(tokenType, index, |tokens| - index);
      if index >= 0 {
        ScanWithinList(tokens, tokenType, index, |tokens|);
      }
    }

    /** `IndexOfType(type)`: the index of the first token of `tokenType`, or -1. */
    method IndexOfType(tokenType: T) returns (r: int)
      ensures r == -1 <==> forall j :: 0 <= j < |tokens| ==> tokens[j].tokenType != tokenType
      ensures r != -1 ==>
        && 0 <= r < |tokens| && tokens[r].tokenType == tokenType
        && forall j :: 0 <= j < r ==> tokens[j].tokenType != tokenType
    {
      var found := IndexOfTypeFrom(tokenType, 0);
      r := found.value;
    }

    /**
     * The first loop of `CollapseType(type)`: the indices of the tokens that follow a token
     * of `tokenType` and have that type too, in increasing order.
     */
    method RunTailIndices(tokenType: T) returns (removing: seq<int>)
      ensures removing == RunTails(tokens, tokenType, |tokens|)
    {
      removing := [];
      var i := 1;
      while i < |tokens|
        invariant i == 1 || 1 <= i <= |tokens|
        invariant removing == RunTails(tokens, tokenType, i)
      {
        var type0 := tokens[i - 1].tokenType;
        var type1 := tokens[i].tokenType;
        if type0 == tokenType && type0 == type1 {
          removing := removing + [i];
        }
        i := i + 1;
      }
    }

    /**
     * The second loop of `CollapseType(type)`: removes the collected indices in increasing
     * order; each removal shifts the later ones down by one.
     */
    method RemoveListed(removing: seq<int>)
      requires IncreasingWithin(removing, |tokens|)
      modifies this
      ensures tokens == RemoveShifted(old(tokens), removing, |removing|)
    {
      ghost var s := tokens;
      var k := 0;
      while k < |removing|
        invariant 0 <= k <= |removing|
        invariant tokens == RemoveShifted(s, removing, k)
      {
        RemoveShiftedInRange(s, removing, k);
        RemoveAt(removing[k] - k);
        k := k + 1;
      }
    }

    /**
     * `CollapseType(type)`: collects the run tails, then removes them; of each run of
     * `tokenType` only its first token is left.
     */
    method CollapseType(tokenType: T)
      modifies this
      ensures tokens == Collapse(old(tokens), tokenType)
    {
      if |tokens| < 2 {
        CollapseOfPairFree(tokens, tokenType);
        return;
      }
      ghost var s := tokens;
      var removing := RunTailIndices(tokenType);
      RunTailsIncreasing(s, tokenType);
      RemoveListed(removing);
      CollapseByRemovals(s, tokenType);
    }

    /**
     * `Segment(start, last)`: a new collection holding the tokens from `start` to `last`,
     * both inclusive, cut at the end of the list.
     */
    method Segment(start: int, last: int) returns (r: Result<TokenCollection<T>, IndexFault>)
      ensures r.Success? ==> fresh(r.value) && SegmentOf(tokens, start, last) == Success(r.value.tokens)
      ensures r.Failure? ==> SegmentOf(tokens, start, last) == Failure(r.error)
    {
      var segment := new TokenCollection<T>();
      var i := start;
      while i < |tokens| && i <= last
        invariant start <= i
        invariant i > start ==> 0 <= start && i <= |tokens| && i <= last + 1
        invariant fresh(segment)
        invariant segment.tokens == if i == start then [] else tokens[start..i]
        decreases |tokens| - i
      {
        if i < 0 {
          return Failure(ArgumentOutOfRange(i));
        }
        segment.AddToken(tokens[i]);
        i := i + 1;
      }
      return Success(segment);
    }

    /**
     * The loop of `Split(type, includeEmpty)`: new collections holding the tokens between
     * separators.  A separator opens a new collection when `Count > 0 || includeEmpty`,
     * which always holds inside the loop, so `includeEmpty` changes nothing.
     */
    method SplitLoop(tokenType: T, includeEmpty: bool) returns (collections: seq<TokenCollection<T>>)
      ensures |collections| == |SplitParts(tokens, tokenType)|
      ensures forall j :: 0 <= j < |collections| ==>
        fresh(collections[j]) && collections[j].tokens == SplitParts(tokens, tokenType)[j]
      ensures forall j, l :: 0 <= j < l < |collections| ==> collections[j] != collections[l]
    {
      var first := new TokenCollection<T>();
      collections := [first];
      ghost var parts: seq<seq<Token<T>>> := [[]];
      var source := tokens;
      var i := 0;
      while i < |source|
        invariant 0 <= i <= |source|
        invariant parts == SplitParts(source[..i], tokenType)
        invariant forall j :: 0 <= j < |collections| ==> fresh(collections[j])
        invariant Mirrors(collections, parts)
      {
        var token := source[i];
        SplitPartsSnoc(source, tokenType, i);
        if token.tokenType == tokenType {
          if |source| > 0 || includeEmpty {
            collections := OpenPart(collections, parts);
            parts := parts + [[]];
          }
        } else {
          FillLast(collections, parts, token);
          parts := parts[..|parts| - 1] + [parts[|parts| - 1] + [token]];
        }
        i := i + 1;
      }
      assert source[..i] == source;
    }

    /**
     * The collections hold the parts, one each, and are distinct objects, so filling one
     * leaves the others alone.
     */
    static ghost predicate Mirrors(collections: seq<TokenCollection<T>>, parts: seq<seq<Token<T>>>)
      reads set j | 0 <= j < |collections| :: collections[j]
    {
      |collections| == |parts| &&
      (forall j :: 0 <= j < |collections| ==> collections[j].tokens == parts[j]) &&
      (forall j, l :: 0 <= j < l < |collections| ==> collections[j] != collections[l])
    }

    /** A separator of `Split`: a new, empty collection is opened after the others. */
    static method OpenPart(collections: seq<TokenCollection<T>>, ghost parts: seq<seq<Token<T>>>)
      returns (next: seq<TokenCollection<T>>)
      requires Mirrors(collections, parts)
      ensures |next| == |collections| + 1 && next[..|collections|] == collections
      ensures fresh(next[|collections|])
      ensures Mirrors(next, parts + [[]])
    {
      var c := new TokenCollection<T>();
      next := collections + [c];
      assert next[..|collections|] == collections;
    }

    /** Any other token of `Split`: it is added to the last collection. */
    static method FillLast(collections: seq<TokenCollection<T>>, ghost parts: seq<seq<Token<T>>>, token: Token<T>)
      requires |collections| > 0 && Mirrors(collections, parts)
      modifies collections[|collections| - 1]
      ensures Mirrors(collections, parts[..|parts| - 1] + [parts[|parts| - 1] + [token]])
    {
      var last := collections[|collections| - 1];
      last.AddToken(token);
      ghost var next := parts[..|parts| - 1] + [parts[|parts| - 1] + [token]];
      forall j | 0 <= j < |collections|
        ensures collections[j].tokens == next[j]
      {
        if j < |collections| - 1 {
          assert collections[j] != last;
        }
      }
    }

    /** `Split(type, includeEmpty)`: the collections of the loop, as an array. */
    method Split(tokenType: T, includeEmpty: bool) returns (parts: array<TokenCollection<T>>)
      ensures fresh(parts)
      ensures parts.Length == CountType(tokens, tokenType) + 1
      ensures forall j :: 0 <= j < parts.Length ==> fresh(parts[j]) && parts[j].tokens == SplitParts(tokens, tokenType)[j]
      ensures forall j, l :: 0 <= j < l < parts.Length ==> parts[j] != parts[l]
    {
      var collections := SplitLoop(tokenType, includeEmpty);
      parts := new TokenCollection<T>[|collections|](j requires 0 <= j < |collections| => collections[j]);
    }

    /** `Split(type)`: `Split(type, true)`. */
    method SplitAll(tokenType: T) returns (parts: array<TokenCollection<T>>)
      ensures fresh(parts)
      ensures parts.Length == CountType(tokens, tokenType) + 1
      ensures forall j :: 0 <= j < parts.Length ==> fresh(parts[j]) && parts[j].tokens == SplitParts(tokens, tokenType)[j]
      ensures forall j, l :: 0 <= j < l < parts.Length ==> parts[j] != parts[l]
    {
      parts := Split(tokenType, true);
    }

    /** `StartsWith(type)`: the list has a leading run of `tokenType` to trim. */
    predicate StartsWith(tokenType: T)
      reads this
      ensures StartsWith(tokenType) <==> StartsWithType(tokens, tokenType)
      ensures StartsWith(tokenType) <==> LeadingRun(tokens, tokenType) > 0
    {
      |tokens| > 0 && tokens[0].tokenType == tokenType
    }

    /** `EndsWith(type)`, through `LastToken`: the list has a trailing run of `tokenType`. */
    predicate EndsWith(tokenType: T)
      reads this
      ensures EndsWith(tokenType) <==> EndsWithType(tokens, tokenType)
      ensures EndsWith(tokenType) <==> TrailingRun(tokens, tokenType) > 0
    {
      |tokens| > 0 && LastToken().value.tokenType == tokenType
    }

    /** The length of the leading run, counted as `TrimStart`'s first loop does. */
    method LeadingCount(tokenType: T) returns (n: int)
      ensures n == LeadingRun(tokens, tokenType)
    {
      var removeFrom := -1;
      var i := 0;
      while i < |tokens|
        invariant 0 <= i <= |tokens|
        invariant removeFrom == i - 1
        invariant forall j :: 0 <= j < i ==> tokens[j].tokenType == tokenType
      {
        if tokens[i].tokenType == tokenType {
          removeFrom := removeFrom + 1;
        } else {
          break;
        }
        i := i + 1;
      }
      n := removeFrom + 1;
      assert i < |tokens| ==> tokens[i].tokenType != tokenType;
    }

    /** `TrimStart(type)`: removes the leading run of `tokenType`, last token first. */
    method TrimStart(tokenType: T)
      modifies this
      ensures tokens == old(tokens)[LeadingRun(old(tokens), tokenType)..]
      ensures !StartsWith(tokenType)
    {
      ghost var s := tokens;
      var n := LeadingCount(tokenType);
      var i := n - 1;
      while i >= 0
        invariant -1 <= i < n
        invariant tokens == s[..i + 1] + s[n..]
      {
        RemoveAt(i);
        i := i - 1;
      }
      TrimStartClears(s, tokenType);
    }

    /** The length of the trailing run, counted as the first loop of `TrimEnd` does. */
    method TrailingCount(tokenType: T) returns (n: int)
      ensures n == TrailingRun(tokens, tokenType)
    {
      var removeFrom := |tokens|;
      var i := |tokens| - 1;
      while i >= 0
        invariant -1 <= i < |tokens|
        invariant removeFrom == i + 1
        invariant forall j :: i < j < |tokens| ==> tokens[j].tokenType == tokenType
      {
        if tokens[i].tokenType == tokenType {
          removeFrom := removeFrom - 1;
        } else {
          break;
        }
        i := i - 1;
      }
      n := |tokens| - removeFrom;
      assert i >= 0 ==> tokens[i].tokenType != tokenType;
    }

    /**
     * The second loop of `TrimEnd(type)`: `for (i = removeFrom; i < Count; i++) RemoveAt(i)`.
     * Every removal shifts the next token into the slot the loop has just passed, so it
     * makes `ceil((Count - removeFrom) / 2)` passes.
     */
    method RemoveFromAscending(removeFrom: int)
      requires 0 <= removeFrom <= |tokens|
      modifies this
      ensures tokens == RemovalsFrom(old(tokens), removeFrom, (|old(tokens)| - removeFrom + 1) / 2)
    {
      ghost var s := tokens;
      var i := removeFrom;
      while i < |tokens|
        invariant removeFrom <= i && 2 * (i - removeFrom) <= |s| - removeFrom + 1
        invariant |tokens| == |s| - (i - removeFrom)
        invariant tokens == RemovalsFrom(s, removeFrom, i - removeFrom)
      {
        RemoveAt(i);
        i := i + 1;
      }
    }

    /**
     * `TrimEnd(type)` as written: it counts the trailing run, then removes from its start
     * upwards, which leaves every second token of the run.
     */
    method TrimEnd(tokenType: T)
      modifies this
      ensures tokens == TrimEndAsWritten(old(tokens), tokenType)
    {
      ghost var s := tokens;
      var k := TrailingCount(tokenType);
      var removeFrom := |tokens| - k;
      assert (|s| - removeFrom + 1) / 2 == (k + 1) / 2;
      RemoveFromAscending(removeFrom);
      TrimEndByRemovals(s, tokenType);
    }

    /** `TrimEnd` as evidently intended: the whole trailing run removed, last token first. */
    method TrimEndAll(tokenType: T)
      modifies this
      ensures tokens == old(tokens)[..|old(tokens)| - TrailingRun(old(tokens), tokenType)]
      ensures !EndsWith(tokenType)
    {
      ghost var s := tokens;
      var k := TrailingCount(tokenType);
      var removeFrom := |tokens| - k;
      var i := |tokens| - 1;
      while i >= removeFrom
        invariant removeFrom - 1 <= i < |s|
        invariant tokens == s[..i + 1]
      {
        RemoveAt(i);
        i := i - 1;
      }
      TrimEndAllClears(s, tokenType);
    }

    /** `Trim(type)`: `TrimStart`, then `TrimEnd` as written. */
    method Trim(tokenType: T)
      modifies this
      ensures tokens == TrimEndAsWritten(old(tokens)[LeadingRun(old(tokens), tokenType)..], tokenType)
      ensures !StartsWith(tokenType)
    {
      TrimStart(tokenType);
      ghost var mid := tokens;
      TrimEnd(tokenType);
      TrimEndKeepsStart(mid, tokenType);
    }

    /** `Trim` built on the intended `TrimEndAll`: neither end has `tokenType` left. */
    method TrimAll(tokenType: T)
      modifies this
      ensures tokens == TrimmedBothEnds(old(tokens), tokenType)
      ensures !StartsWith(tokenType) && !EndsWith(tokenType)
    {
      TrimStart(tokenType);
      ghost var mid := tokens;
      TrimEndAll(tokenType);
      TrimEndAllKeepsStart(mid, tokenType);
    }
  }
}
