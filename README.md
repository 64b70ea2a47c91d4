# Tokenize: the state-machine engine and the token collection, in Dafny

Tokenize is a small C# library for writing tokenizers. The project models two of its parts.

**The finite-state-machine engine** (`Tokenize/StateMachine`):
- A `FiniteStateMachine<T>` holds an append-only list of `State<T>` objects. State `i` has index `i`.
- Each state holds an ordered, append-only list of `StateTransition<T>` values. A transition is a target state, a validator `T -> bool` and an optional action.
- `Run` starts in state 0 at position 1. For each bit of the stream it takes the first transition of the current state that accepts the bit. If actions are on, it fires that transition's action, then moves to the target.
- When no transition accepts the bit, `Run` throws `StateMachineException(bit, position, state)`.
- `MachineResult` is a success or failure record with two factories.

**`TokenCollection<T>`** (`Tokenize/TokenCollection.cs`) is a list of tokens. Each token is a type plus a lexeme. The class offers:
- the `Add` overloads and `LastToken`;
- `RemoveType`;
- the three `IndexOfType` overloads;
- `CollapseType`, which keeps the first token of each run of one type;
- `Segment` and the two `Split` overloads;
- `StartsWith` and `EndsWith`;
- `TrimStart`, `TrimEnd` and `Trim`.

## How the model is built

Each core file becomes one module. Values stay values: a transition, a run outcome, an exception, a `MachineResult` and a token are datatypes. Objects that the C# updates in place are Dafny classes: `State`, `FiniteStateMachine` and `TokenCollection`. Their lists are `seq` fields, and the methods reassign those fields.

Every method that loops is proved against a pure specification function:
- `FiniteStateMachine.Run` is proved against `Walk`/`Exec`, which run over the machine's graph (the transitions of every state).
- The `TokenCollection` methods are proved against the functions of module `TokenLists`.
- The removal loop of `CollapseType` is proved against the generic `ShiftedRemovals.RemoveShifted`.
- The second loop of `TrimEnd` is proved against `TokenLists.RemovalsFrom`.

The lemmas then say what those functions mean.

Delegates and exceptions:
- A validator is a total function `T -> bool`.
- An action is an identifier. Invoking it on a bit is recorded as a `Fired(action, bit)` entry in the log that `Run` returns.
- Exceptions are results. `Run` returns a `RunOutcome`: `Finished(state)`, `Thrown(StateMachineException)`, or `StateIndexOutOfRange(index)` when the list indexer `States[state]` throws.
- The `TokenCollection` indexer's `ArgumentOutOfRangeException` is `Failure(ArgumentOutOfRange(index))`.

A transition whose target is -1 ends the run as if no transition had matched. This is because `Run` uses -1 as its "no match" sentinel (`Tokenize/StateMachine/FiniteStateMachine.cs:53-68`). The action of such a transition has already fired by then.

## Model

| member | source | states |
|---|---|---|
| StateTransitions.EqualsBit | Tokenize/StateMachine/StateTransition.cs:39 | The validator built from one bit accepts exactly the bits equal to it. |
| StateTransitions.EqualityTransition | Tokenize/StateMachine/StateTransition.cs:36-41 | The equality constructor keeps the target and the action. Its validator accepts exactly the bits equal to `validBit`. |
| States.AnyEquals | Tokenize/StateMachine/State.cs:75-82 | The `foreach` lambda of the set overload returns true exactly when the bit is one of `validBits`. |
| States.InSet | Tokenize/StateMachine/State.cs:73-83 | The set overload's validator accepts exactly the members of `validBits`. |
| States.State.constructor | Tokenize/StateMachine/State.cs:25-28 | A new state has the given index, no transitions and `IsValid` false. |
| States.State.AddTransition | Tokenize/StateMachine/State.cs:35-39 | Appends the transition at the end, leaves `IsValid` alone and returns the state itself. |
| States.State.AddValidatorTransition | Tokenize/StateMachine/State.cs:47-50 | Appends a transition with the given target, validator and action; returns the state. |
| States.State.AddBitTransition | Tokenize/StateMachine/State.cs:60-63 | Appends a transition that accepts exactly bits equal to `validBit`, with the given target and action. |
| States.State.AddBitsTransition | Tokenize/StateMachine/State.cs:73-83 | Appends a transition that accepts exactly the members of `validBits`, with the given target and action. |
| States.State.AddValidatorTransitionNoAction | Tokenize/StateMachine/State.cs:90-93 | Same as the validator overload with a null action. |
| States.State.AddBitTransitionNoAction | Tokenize/StateMachine/State.cs:102-105 | Same as the equality overload with a null action. |
| States.State.AddBitsTransitionNoAction | Tokenize/StateMachine/State.cs:114-117 | Same as the set overload with a null action. |
| StateMachineExceptions.NatToString | Tokenize/StateMachine/StateMachineException.cs:28 | A number is written as decimal digits with no leading zero, as `int.ToString()` writes it. |
| StateMachineExceptions.IntToStringRoundTrip | Tokenize/StateMachine/StateMachineException.cs:28 | The decimal text written for the state and the position reads back as the same integer, negative ones included. |
| StateMachineExceptions.MessageReportsStateAndPosition | Tokenize/StateMachine/StateMachineException.cs:27-33 | The message is "Unexpected <type> "<bit>" at state <s>, position <p>.". Here s and p read back as the exception's `State` and `Position`. |
| MachineResults.Success | Tokenize/StateMachine/MachineResult.cs:37-40 | A success result holds the state and no error, so `HasError` is false. |
| MachineResults.Failed | Tokenize/StateMachine/MachineResult.cs:48-52 | Throws `ArgumentException` exactly when the message is null. Otherwise it returns the state and message, with `HasError` true. |
| MachineResults.HasErrorIffMadeByFailed | Tokenize/StateMachine/MachineResult.cs:24-52 | A result without an error is what `Success` builds. A result with an error is what `Failed` builds from its own state and message. |
| FiniteStateMachines.FirstMatch | Tokenize/StateMachine/FiniteStateMachine.cs:54-62 | The index of the chosen transition lies in the list, or is -1. |
| FiniteStateMachines.FirstMatchIsFirst | Tokenize/StateMachine/FiniteStateMachine.cs:54-62 | The chosen transition accepts the bit, and no transition before it does. When -1 is returned, none accepts it. |
| FiniteStateMachines.TakeTransition | Tokenize/StateMachine/FiniteStateMachine.cs:53-62 | The inner loop yields the target of the first accepting transition, or -1. It fires that transition's action only when actions are on and the action is not null. |
| FiniteStateMachines.FiniteStateMachine.constructor | Tokenize/StateMachine/FiniteStateMachine.cs:13 | A new machine has no states. |
| FiniteStateMachines.FiniteStateMachine.StateAt | Tokenize/StateMachine/FiniteStateMachine.cs:20-23 | The indexer throws `ArgumentOutOfRangeException` exactly when the index is outside the list. Otherwise it returns the machine's state whose index is the one asked for. |
| FiniteStateMachines.FiniteStateMachine.AddState | Tokenize/StateMachine/FiniteStateMachine.cs:29-34 | Appends a fresh state with no transitions, whose index is the old number of states. The existing states and their transitions do not change. |
| FiniteStateMachines.FiniteStateMachine.Run | Tokenize/StateMachine/FiniteStateMachine.cs:46-75 | How the run ends, and the actions it fires in order, are those of `Exec` on the machine's graph. It starts in state 0 at position 1. |
| FiniteStateMachines.WalkAppend | Tokenize/StateMachine/FiniteStateMachine.cs:50-73 | Running `u + v` means running `u`, then running `v` from the state reached at the following position. A run that throws inside `u` never reads `v`. |
| FiniteStateMachines.SilentRunSameOutcome | Tokenize/StateMachine/FiniteStateMachine.cs:58 | With `callActions` false, the run ends exactly as with actions on, and it fires nothing. |
| FiniteStateMachines.AtMostOneActionPerBit | Tokenize/StateMachine/FiniteStateMachine.cs:54-61 | A run fires at most one action per bit. |
| FiniteStateMachines.EarliestAcceptorDecides | Tokenize/StateMachine/FiniteStateMachine.cs:54-61 | First match wins: the earliest accepting transition decides the target and the action. |
| FiniteStateMachines.MinusOneTargetThrowsAfterAction | Tokenize/StateMachine/FiniteStateMachine.cs:53-68 | Following a transition that targets -1 throws at that bit, in that state, after its action has fired. |
| FiniteStateMachines.ThrownDiagnostic | Tokenize/StateMachine/FiniteStateMachine.cs:64-68 | A thrown exception reports the bit at its position. The bits before it lead to the reported state, and that state does not follow the bit. |
| FiniteStateMachines.ThrownLog | Tokenize/StateMachine/FiniteStateMachine.cs:50-68 | A throwing run fires the actions of the bits before the failing one, then the failing step's action. |
| FiniteStateMachines.NoStateIndexFault | Tokenize/StateMachine/FiniteStateMachine.cs:54 | When every target is a state of the machine or -1, `States[state]` never throws. |
| FiniteStateMachines.ExecMatchesReach | Tokenize/StateMachine/FiniteStateMachine.cs:46-75 | A run finishes exactly when the reference definition `Reach` reaches a state, and it ends in that state. |
| FiniteStateMachines.EmptyStreamFinishesAtZero | Tokenize/StateMachine/FiniteStateMachine.cs:48-50 | An empty stream ends in state 0 and fires nothing, even on a machine with no states. |
| FiniteStateMachineScenarios.AlternatingRuns | Tokenize/StateMachine/FiniteStateMachine.cs:46-75 | On the 0-A->1, 1-B->0 machine, `ABAB` finishes in state 0. `AA` throws for `A` at position 2 in state 1. |
| FiniteStateMachineScenarios.DigitRuns | Tokenize/StateMachine/FiniteStateMachine.cs:56-59 | A digit loop fires its action once per digit, in order, only when actions are on. |
| FiniteStateMachineScenarios.BuildAlternatingMachine | Tokenize/StateMachine/FiniteStateMachine.cs:29-34 | Building through `AddState` and the equality `AddTransition` gives the alternating graph. |
| FiniteStateMachineScenarios.AlternatingMachineRuns | Tokenize/StateMachine/FiniteStateMachine.cs:46-75 | The machine built through the classes runs `ABAB` and `AA` as the graph says. |
| Tokens.TypeOnly | Tokenize/Token.cs:36-39 | `Token(type)` has that type and an empty lexeme. |
| TokenCollections.TokenCollection.constructor | Tokenize/TokenCollection.cs:11 | A new collection is empty. |
| TokenCollections.TokenCollection.LastToken | Tokenize/TokenCollection.cs:16-19 | Returns the last token. It throws for index -1 exactly when the list is empty. |
| TokenCollections.TokenCollection.AddToken | Tokenize/TokenCollection.cs:28 | `List.Add` appends the token, which becomes `LastToken`. |
| TokenCollections.TokenCollection.RemoveAt | Tokenize/TokenCollection.cs:217-220 | `List.RemoveAt` removes exactly the token at the index and keeps the order of the others. |
| TokenCollections.TokenCollection.Add | Tokenize/TokenCollection.cs:26-29 | Appends a token with the type and the lexeme. |
| TokenCollections.TokenCollection.AddChar | Tokenize/TokenCollection.cs:35-38 | Appends a token whose lexeme is the one character. |
| TokenCollections.TokenCollection.AddType | Tokenize/TokenCollection.cs:43-46 | Appends a token of the type with an empty lexeme. |
| TokenCollections.TokenCollection.RemoveType | Tokenize/TokenCollection.cs:52-55 | The new list is `WithoutType` of the old one. |
| TokenLists.WithoutType | Tokenize/TokenCollection.cs:52-55 | Removing a type shortens the list by exactly the number of tokens of that type. |
| TokenLists.WithoutTypeDropsType | Tokenize/TokenCollection.cs:52-55 | No token of the removed type is left. |
| TokenLists.WithoutTypeCount | Tokenize/TokenCollection.cs:52-55 | Each token of another type occurs exactly as often as before. Tokens of the removed type occur zero times. |
| TokenLists.WithoutTypeKeepsOthers | Tokenize/TokenCollection.cs:52-55 | The same as `WithoutTypeCount`, stated for all tokens at once. |
| TokenLists.WithoutTypeAppend | Tokenize/TokenCollection.cs:52-55 | `RemoveAll` acts on a concatenation part by part, so order is kept. |
| TokenLists.WithoutTypeOfOthers | Tokenize/TokenCollection.cs:52-55 | A list without the type is left unchanged. |
| TokenLists.CountTypeZero | Tokenize/TokenCollection.cs:52-55 | The count of a type is zero exactly when no token has it. |
| TokenCollections.TokenCollection.IndexOfTypeWithin | Tokenize/TokenCollection.cs:65-72 | The three-argument search as written: it scans from `index` while `i < Count` or `i < index + count`. It throws at the first index outside the list. |
| TokenLists.ScanWithinList | Tokenize/TokenCollection.cs:67-71 | A scan that stays inside the list never throws. It returns -1 exactly when the range has no token of the type, and otherwise the least index of one. |
| TokenLists.ScanPastEnd | Tokenize/TokenCollection.cs:67-71 | A scan whose bound is past the end, and that finds nothing before the end, throws at the end of the list. |
| TokenLists.IndexOfTypeIgnoresCount | Tokenize/TokenCollection.cs:67 | As written, a count of 1 still finds a match at index 1, and a count past the end throws. |
| TokenCollections.TokenCollection.IndexOfTypeBounded | Tokenize/TokenCollection.cs:65-72 | The search with the evidently intended `&&`: it matches the bounded scan and never throws for a non-negative `index`. |
| TokenLists.BoundedScanFinds | Tokenize/TokenCollection.cs:67 | The bounded search returns the least index in `[index, index + count)` within the list that has the type, or -1 when there is none. |
| TokenCollections.TokenCollection.IndexOfTypeFrom | Tokenize/TokenCollection.cs:80-83 | Calls the three-argument search as written, with `count = Count - index`. Throws exactly for a negative `index`. Otherwise it returns the least index at or after `index` with the type, or -1 exactly when there is none. |
| TokenCollections.TokenCollection.IndexOfType | Tokenize/TokenCollection.cs:89-92 | Returns the least index with the type, or -1 exactly when no token has it. |
| TokenCollections.TokenCollection.RunTailIndices | Tokenize/TokenCollection.cs:105-114 | The first loop of `CollapseType` collects exactly the run tails, in increasing order. |
| TokenLists.RunTails | Tokenize/TokenCollection.cs:106-114 | Every collected index follows a token of the type and has the type itself. |
| TokenLists.RunTailsComplete | Tokenize/TokenCollection.cs:106-114 | Every such index is collected, in strictly increasing order. |
| TokenLists.RunTailsIncreasing | Tokenize/TokenCollection.cs:106-114 | The collected indices lie in the list and strictly increase. |
| TokenCollections.TokenCollection.RemoveListed | Tokenize/TokenCollection.cs:117-120 | Removing the collected tokens one after another gives `RemoveShifted` of the old list. |
| ShiftedRemovals.RemoveShiftedInRange | Tokenize/TokenCollection.cs:117-120 | Each removal's shifted index lies inside the current list, so no removal misses. |
| ShiftedRemovals.RemoveShiftedAll | Tokenize/TokenCollection.cs:117-120 | Once all the listed removals are done, exactly the unlisted elements remain, in order. |
| TokenLists.CollapseByRemovals | Tokenize/TokenCollection.cs:104-120 | Collecting the run tails and then removing them gives `Collapse`. |
| TokenCollections.TokenCollection.CollapseType | Tokenize/TokenCollection.cs:100-121 | The new list is `Collapse` of the old one, including the early return for fewer than two tokens. |
| TokenLists.Collapse | Tokenize/TokenCollection.cs:100-121 | Collapsing never lengthens the list. |
| TokenLists.CollapsePairFree | Tokenize/TokenCollection.cs:100-121 | After collapsing, no token of the type directly follows another. |
| TokenLists.CollapseKeepsOthers | Tokenize/TokenCollection.cs:100-121 | The tokens of other types are all kept, in order. |
| TokenLists.CollapseOfPairFree | Tokenize/TokenCollection.cs:100-121 | A list without adjacent tokens of the type is left unchanged. |
| TokenLists.CollapseIdempotent | Tokenize/TokenCollection.cs:100-121 | Collapsing twice is the same as collapsing once. |
| TokenLists.CollapseExtend | Tokenize/TokenCollection.cs:106-120 | Where no run tail lies, the collapsed list keeps the tokens as they are. |
| TokenLists.CollapsedPrefixLast | Tokenize/TokenCollection.cs:106-120 | The collapsed prefix ends with a token of the same type as the prefix's last token. |
| TokenLists.SegmentOf | Tokenize/TokenCollection.cs:133-141 | `Segment` throws exactly when the first index tried is negative. Otherwise it holds the tokens from `start` to `last`, both included, cut at the end of the list. |
| TokenCollections.TokenCollection.Segment | Tokenize/TokenCollection.cs:133-141 | Returns a fresh collection holding `SegmentOf`, or the same fault. |
| TokenLists.SplitParts | Tokenize/TokenCollection.cs:150-172 | `Split` makes one more part than there are separators. |
| TokenLists.SplitPartsSnoc | Tokenize/TokenCollection.cs:157-168 | A separator opens a new, empty part. Any other token joins the last part. |
| TokenLists.SplitPartsFreeOfSeparators | Tokenize/TokenCollection.cs:155-168 | No part holds a separator. |
| TokenLists.SplitPartsConcat | Tokenize/TokenCollection.cs:155-168 | Joining the parts gives the list without the separators, in order. |
| TokenCollections.TokenCollection.OpenPart | Tokenize/TokenCollection.cs:160-163 | A separator appends a fresh, empty collection and keeps the earlier ones. |
| TokenCollections.TokenCollection.FillLast | Tokenize/TokenCollection.cs:165-168 | Any other token goes into the last collection only. |
| TokenCollections.TokenCollection.SplitLoop | Tokenize/TokenCollection.cs:152-169 | The loop builds distinct, fresh collections, one per part of `SplitParts`, in order. |
| TokenCollections.TokenCollection.Split | Tokenize/TokenCollection.cs:150-172 | Returns a fresh array of separator count + 1 distinct collections, each holding its part. |
| TokenCollections.TokenCollection.SplitAll | Tokenize/TokenCollection.cs:180-183 | `Split(type)` is `Split(type, true)`, with the same result. |
| TokenCollections.TokenCollection.StartsWith | Tokenize/TokenCollection.cs:190-193 | True exactly when the list's first token has the type (`TokenLists.StartsWithType`), which is exactly when it has a non-empty leading run of the type. |
| TokenCollections.TokenCollection.EndsWith | Tokenize/TokenCollection.cs:199-202 | True exactly when the list's last token has the type (`TokenLists.EndsWithType`), which is exactly when it has a non-empty trailing run of the type. |
| TokenLists.LeadingRun | Tokenize/TokenCollection.cs:211-216 | The leading run is the longest prefix of tokens of the type. |
| TokenCollections.TokenCollection.LeadingCount | Tokenize/TokenCollection.cs:211-216 | `TrimStart`'s first loop counts the leading run. |
| TokenCollections.TokenCollection.TrimStart | Tokenize/TokenCollection.cs:209-221 | Removes exactly the leading run of the type. The result no longer starts with the type. |
| TokenLists.TrimStartClears | Tokenize/TokenCollection.cs:209-221 | After the leading run is removed, the list does not start with the type. A list starts with the type exactly when its leading run is non-empty. |
| TokenLists.TrailingRun | Tokenize/TokenCollection.cs:229-234 | The trailing run is the longest suffix of tokens of the type. |
| TokenCollections.TokenCollection.TrailingCount | Tokenize/TokenCollection.cs:229-234 | `TrimEnd`'s first loop counts the trailing run. |
| TokenCollections.TokenCollection.RemoveFromAscending | Tokenize/TokenCollection.cs:235-238 | The ascending `RemoveAt(i)` loop makes `ceil((Count - removeFrom) / 2)` removals, each at the next index up. |
| TokenLists.RemovalsFromTail | Tokenize/TokenCollection.cs:235-238 | Those removals keep everything before the run and every second token of the run. |
| TokenLists.TrimEndByRemovals | Tokenize/TokenCollection.cs:227-239 | Counting the trailing run and then removing upwards gives `TrimEndAsWritten`. |
| TokenCollections.TokenCollection.TrimEnd | Tokenize/TokenCollection.cs:227-239 | `TrimEnd` as written: the new list is `TrimEndAsWritten` of the old one. |
| TokenLists.TrimEndRemovesHalfTheRun | Tokenize/TokenCollection.cs:227-239 | As written, `TrimEnd` removes `ceil(k/2)` tokens of a trailing run of length `k` and keeps the rest of the list. The result still ends with the type exactly when `k >= 2`. |
| TokenLists.TrimEndLeavesOneOfTwo | Tokenize/TokenCollection.cs:235-238 | Two tokens of the type: `TrimEnd` as written leaves the second one. |
| TokenCollections.TokenCollection.TrimEndAll | Tokenize/TokenCollection.cs:227-239 | The evidently intended `TrimEnd` removes the whole trailing run. The result no longer ends with the type. |
| TokenLists.TrimEndAllClears | Tokenize/TokenCollection.cs:227-239 | With the whole trailing run removed, the list does not end with the type. It shrank exactly when it ended with the type. |
| TokenCollections.TokenCollection.Trim | Tokenize/TokenCollection.cs:245-249 | `TrimStart`, then `TrimEnd` as written. The result does not start with the type. |
| TokenLists.TrimEndKeepsStart | Tokenize/TokenCollection.cs:245-249 | `TrimEnd` as written does not make a list start with the type. |
| TokenLists.TrimEndAllKeepsStart | Tokenize/TokenCollection.cs:245-249 | Removing the trailing run does not make a list start with the type. |
| TokenCollections.TokenCollection.TrimAll | Tokenize/TokenCollection.cs:245-249 | `Trim` built on the corrected `TrimEnd`: the result is `TrimmedBothEnds`, which neither starts nor ends with the type. |
| TokenLists.TrimmedBothEnds | Tokenize/TokenCollection.cs:245-249 | The fully trimmed list neither starts nor ends with the type. |
| TokenLists.TrimmedBothEndsIsCore | Tokenize/TokenCollection.cs:245-249 | Trimming keeps one contiguous stretch that starts right after the leading run. Every token outside it has the type. |

## Left out

- Actions: a `StateAction<T>` delegate can do anything, including changing the machine during a run. The model records each invocation as a `Fired` entry and gives actions no other effect.
- Validators: a `BitValidator<T>` is taken to be a total, pure function. A null or throwing validator, and a `default(StateTransition<T>)` with a null validator, are not modelled.
- `State.IsValid`: kept as a field that the machine never reads, as in the code.
- `IEnumerable<T>` streams and bit sets are finite sequences. Lazy or infinite enumerables are not modelled.
- Concurrent runs and building a machine while it runs are not modelled.
- `StateMachineException` extends `System.Exception`. Only its three properties and its message are modelled. `typeof(T).Name` and `unexpectedBit.ToString()` are passed in as strings. .NET number formatting is modelled for the invariant culture.
- 32-bit `int` overflow is not modelled, because integers are unbounded here. This covers `pos++` in `Run`, `index + count` in `IndexOfType` and `Count - index`.
- Token identity: `Token<T>` is a C# class with setters, compared by reference. Here a token is a value.
- CollapseType: `Remove(token)` removes the first element that is the same object. The model removes the collected positions, shifted by the removals already done. The two agree when no token object occurs twice in the list. Aliasing of one token object at two positions is not modelled.
- SplitLoop: the condition `Count > 0 || includeEmpty` tests the whole collection, which is never empty inside the loop. So `includeEmpty` has no effect, as written. The model keeps that behaviour. A different intended meaning of the flag is not modelled.
- Lexemes: a lexeme is a `seq<char>`, so a null lexeme (`Add(type, null)`) and a lone UTF-16 surrogate from `char.ToString()` are not modelled. No modelled operation reads a lexeme.
- `ToString()` (`Tokenize/TokenCollection.cs:255-264`) is string rendering and is not modelled.
- The rest of `List<Token<T>>`, which `TokenCollection<T>` inherits, is not modelled. Only `Add`, `RemoveAt`, `RemoveAll`, `Remove` and the indexer, as the core uses them, are modelled.

## Findings

| source | as written | input that shows it | evidently intended | confidence | as-written member | corrected member |
|---|---|---|---|---|---|---|
| Tokenize/TokenCollection.cs:235-238 | `for (i = removeFrom; i < Count; i++) RemoveAt(i)` advances `i` after every removal, while each removal shifts the next token down into slot `i`. Only every other token of the trailing run is removed. | A collection of two tokens of type `t`; `TrimEnd(t)` leaves the second token. | Remove the whole trailing run, so the list no longer ends with `t`. | high; not executed | TokenCollections.TokenCollection.TrimEnd, TokenLists.TrimEndLeavesOneOfTwo | TokenCollections.TokenCollection.TrimEndAll |
| Tokenize/TokenCollection.cs:67 | The loop runs while `i < Count` or `i < index + count`. The count never limits the search, and a count past the end makes the indexer throw. | Tokens of types `[a, b]`: `IndexOfType(b, 0, 1)` returns 1. Tokens of type `[a]`: `IndexOfType(b, 0, 5)` throws `ArgumentOutOfRangeException` for index 1. | Loop while `i < Count && i < index + count`: search at most `count` tokens and stop at the end of the list. | high; not executed | TokenCollections.TokenCollection.IndexOfTypeWithin, TokenLists.IndexOfTypeIgnoresCount | TokenCollections.TokenCollection.IndexOfTypeBounded, TokenLists.BoundedScanFinds |
