/**
 * Model of Tokenize/StateMachine/FiniteStateMachine.cs.
 *
 * A machine is an append-only list of `State<T>` objects, state `i` having index `i`.
 * `Run` starts in state 0 at position 1 and, for each bit of the stream, takes the first
 * transition (in insertion order) of the current state whose validator accepts the bit,
 * fires its action when `callActions` is set, and moves to its target.  When no
 * transition accepts the bit, or the accepting one targets -1 (the code's "no match"
 * sentinel), the run throws `StateMachineException(bit, position, state)`.  Indexing
 * `States` with an out-of-range state throws `ArgumentOutOfRangeException`.
 *
 * The pure specification (`Step`, `Walk`, `Exec`) works on the machine's graph: the
 * sequence of every state's transitions.  `FiniteStateMachine.Run` is proved against it.
 */
module FiniteStateMachines {
  import opened Wrappers
  import opened StateTransitions
  import opened StateMachineExceptions
  import opened States

  /** The graph a run traverses: the transitions of state 0, 1, ... in order. */
  type Graph<!T> = seq<seq<StateTransition<T>>>

  /** `ArgumentOutOfRangeException`, thrown by the list indexer `States[index]`. */
  datatype IndexOutOfRange = IndexOutOfRange(index: int)

  /** How `Run` ends: it returns a state, or throws one of two exceptions. */
  datatype RunOutcome<T> =
    | Finished(state: int)
    | Thrown(error: StateMachineException<T>)
    | StateIndexOutOfRange(index: int)

  /**
   * The inner `foreach` of `Run`: the index of the first transition whose validator
   * accepts `bit`, or -1 when none does.
   */
  function FirstMatch<T>(transitions: seq<StateTransition<T>>, bit: T): (k: int)
    ensures -1 <= k < |transitions|
  {
    if transitions == [] then -1
    else if transitions[0].isValidBit(bit) then 0
    else
      var k := FirstMatch(transitions[1..], bit);
      if k < 0 then -1 else k + 1
  }

  lemma {:induction false} FirstMatchIsFirst<T>(transitions: seq<StateTransition<T>>, bit: T)
    ensures var k := FirstMatch(transitions, bit);
      && (k >= 0 ==> transitions[k].isValidBit(bit))
      && forall j :: 0 <= j < |transitions| && (k < 0 || j < k) ==> !transitions[j].isValidBit(bit)
    decreases |transitions|
  {
    if transitions != [] && !transitions[0].isValidBit(bit) {
      FirstMatchIsFirst(transitions[1..], bit);
    }
  }

  /** The effect of one bit: the state to move to (-1 when none) and the actions fired. */
  datatype Move<T> = Move(next: int, fired: seq<Fired<T>>)

  /** The effect of a whole run: how it ends and the actions fired, in order. */
  datatype Trace<T> = Trace(outcome: RunOutcome<T>, log: seq<Fired<T>>)

  /**
   * One bit against the transitions of the current state: the target of the first
   * transition that accepts it (-1 when none does) and that transition's action, if any
   * and if actions are called.
   */
  function Step<T>(transitions: seq<StateTransition<T>>, bit: T, callActions: bool): Move<T>
  {
    var k := FirstMatch(transitions, bit);
    if k < 0 then Move(-1, [])
    else
      var t := transitions[k];
      Move(t.nextState, if callActions && t.action.Some? then [Fired(t.action.value, bit)] else [])
  }

  /**
   * The inner `foreach` of `Run`: scans the transitions in order, and at the first one
   * whose validator accepts `bit` fires its action (when `callActions` is set and it has
   * one), takes its target and stops; -1 when none accepts.
   */
  method TakeTransition<T>(transitions: seq<StateTransition<T>>, bit: T, callActions: bool) returns (nextState: int, fired: seq<Fired<T>>)
    ensures Move(nextState, fired) == Step(transitions, bit, callActions)
  {
    nextState := -1;
    fired := [];
    ghost var taken := -1;
    var j := 0;
    while j < |transitions|
      invariant 0 <= j <= |transitions|
      invariant forall jj :: 0 <= jj < j ==> !transitions[jj].isValidBit(bit)
      invariant nextState == -1 && fired == [] && taken == -1
    {
      var transition := transitions[j];
      if transition.isValidBit(bit) {
        if callActions && transition.action.Some? {
          fired := [Fired(transition.action.value, bit)];
        }
        nextState := transition.nextState;
        taken := j;
        break;
      }
      j := j + 1;
    }
    FirstMatchIsFirst(transitions, bit);
    assert taken == FirstMatch(transitions, bit);
  }

  /**
   * The run of `stream` from `state`, the first bit being at position `pos`.  A bit
   * whose step yields -1 throws at that bit, after the step's action has fired.
   */
  function Walk<T>(graph: Graph<T>, state: int, pos: int, stream: seq<T>, callActions: bool): Trace<T>
    decreases |stream|
  {
    if stream == [] then Trace(Finished(state), [])
    else if state < 0 || state >= |graph| then Trace(StateIndexOutOfRange(state), [])
    else
      var m := Step(graph[state], stream[0], callActions);
      if m.next == -1 then Trace(Thrown(StateMachineException(stream[0], pos, state)), m.fired)
      else
        var rest := Walk(graph, m.next, pos + 1, stream[1..], callActions);
        Trace(rest.outcome, m.fired + rest.log)
  }

  /** `Run(stream, callActions)`: state 0, position 1. */
  function Exec<T>(graph: Graph<T>, stream: seq<T>, callActions: bool): Trace<T>
  {
    Walk(graph, 0, 1, stream, callActions)
  }

  /**
   * A reference definition of the state reached: follow, for each bit from left to right,
   * the earliest transition that accepts it; `None` once a bit is not followed (no
   * transition accepts it, the accepting one targets -1, or the state has no entry).
   */
  function Reach<T>(graph: Graph<T>, stream: seq<T>): Option<int>
    decreases |stream|
  {
    if stream == [] then Some(0)
    else match Reach(graph, stream[..|stream| - 1])
      case None => None
      case Some(q) =>
        if 0 <= q < |graph| then
          var k := FirstMatch(graph[q], stream[|stream| - 1]);
          if k >= 0 && graph[q][k].nextState != -1 then Some(graph[q][k].nextState) else None
        else None
  }

  /** Every transition targets a state of the graph, or the sentinel -1. */
  ghost predicate TargetsInRange<T>(graph: Graph<T>)
  {
    forall i, j :: 0 <= i < |graph| && 0 <= j < |graph[i]| ==> -1 <= graph[i][j].nextState < |graph|
  }

  /**
   * The loop of `Run` in the middle of the stream: having fired `log` and reached `state`
   * at bit `i`, the rest of the run is the step on bit `i` and then the run from its target.
   */
  lemma {:induction false} RunLoopStep<T>(graph: Graph<T>, state: int, stream: seq<T>, i: nat, callActions: bool, log: seq<Fired<T>>, expected: Trace<T>)
    requires i < |stream| && 0 <= state < |graph|
    requires expected.outcome == Walk(graph, state, i + 1, stream[i..], callActions).outcome
    requires expected.log == log + Walk(graph, state, i + 1, stream[i..], callActions).log
    ensures var m := Step(graph[state], stream[i], callActions);
      && (m.next == -1 ==> expected == Trace(Thrown(StateMachineException(stream[i], i + 1, state)), log + m.fired))
      && (m.next != -1 ==>
            && expected.outcome == Walk(graph, m.next, i + 2, stream[i + 1..], callActions).outcome
            && expected.log == (log + m.fired) + Walk(graph, m.next, i + 2, stream[i + 1..], callActions).log)
  {
    var m := Step(graph[state], stream[i], callActions);
    assert stream[i..][0] == stream[i] && stream[i..][1..] == stream[i + 1..];
    if m.next != -1 {
      var rest := Walk(graph, m.next, i + 2, stream[i + 1..], callActions);
      assert log + (m.fired + rest.log) == (log + m.fired) + rest.log;
    }
  }

  /** The loop of `Run` when it stops without consuming bit `i`, or at the end of the stream. */
  lemma {:induction false} RunLoopExit<T>(graph: Graph<T>, state: int, stream: seq<T>, i: nat, callActions: bool, log: seq<Fired<T>>, expected: Trace<T>)
    requires i <= |stream| && (i == |stream| || !(0 <= state < |graph|))
    requires expected.outcome == Walk(graph, state, i + 1, stream[i..], callActions).outcome
    requires expected.log == log + Walk(graph, state, i + 1, stream[i..], callActions).log
    ensures expected == Trace(if i == |stream| then Finished(state) else StateIndexOutOfRange(state), log)
  {
    assert log + [] == log;
  }

  /**
   * Running `u + v` is running `u` and then, only if that finished, running `v` from the
   * state reached, at the next position; a run that throws on `u` never looks at `v`.
   */
  lemma {:induction false} WalkAppend<T>(graph: Graph<T>, state: int, pos: int, u: seq<T>, v: seq<T>, callActions: bool)
    ensures var first := Walk(graph, state, pos, u, callActions);
      Walk(graph, state, pos, u + v, callActions)
        == if first.outcome.Finished? then
             var second := Walk(graph, first.outcome.state, pos + |u|, v, callActions);
             Trace(second.outcome, first.log + second.log)
           else first
    decreases |u|
  {
    if u == [] {
      assert u + v == v;
      assert [] + Walk(graph, state, pos, v, callActions).log == Walk(graph, state, pos, v, callActions).log;
    } else {
      assert (u + v)[0] == u[0] && (u + v)[1..] == u[1..] + v;
      if 0 <= state < |graph| {
        var m := Step(graph[state], u[0], callActions);
        if m.next != -1 {
          WalkAppend(graph, m.next, pos + 1, u[1..], v, callActions);
          var first := Walk(graph, m.next, pos + 1, u[1..], callActions);
          if first.outcome.Finished? {
            var second := Walk(graph, first.outcome.state, pos + |u|, v, callActions);
            assert m.fired + (first.log + second.log) == (m.fired + first.log) + second.log;
          }
        }
      }
    }
  }

  /** The run with actions suppressed takes the same path and ends alike, firing nothing. */
  lemma {:induction false} SilentRunSameOutcome<T>(graph: Graph<T>, state: int, pos: int, stream: seq<T>)
    ensures Walk(graph, state, pos, stream, false) == Trace(Walk(graph, state, pos, stream, true).outcome, [])
    decreases |stream|
  {
    if stream != [] && 0 <= state < |graph| {
      var m := Step(graph[state], stream[0], true);
      assert Step(graph[state], stream[0], false) == Move(m.next, []);
      if m.next != -1 {
        SilentRunSameOutcome(graph, m.next, pos + 1, stream[1..]);
        assert [] + Walk(graph, m.next, pos + 1, stream[1..], false).log == [];
      }
    }
  }

  /** At most one action fires per bit consumed. */
  lemma {:induction false} AtMostOneActionPerBit<T>(graph: Graph<T>, state: int, pos: int, stream: seq<T>, callActions: bool)
    ensures |Walk(graph, state, pos, stream, callActions).log| <= |stream|
    decreases |stream|
  {
    if stream != [] && 0 <= state < |graph| {
      var m := Step(graph[state], stream[0], callActions);
      if m.next != -1 {
        AtMostOneActionPerBit(graph, m.next, pos + 1, stream[1..], callActions);
      }
    }
  }

  /**
   * First match wins: when transition `k` is the earliest of its state to accept `bit`,
   * the step follows `k` and fires `k`'s action and no other.
   */
  lemma {:induction false} EarliestAcceptorDecides<T>(transitions: seq<StateTransition<T>>, bit: T, callActions: bool, k: int)
    requires 0 <= k < |transitions| && transitions[k].isValidBit(bit)
    requires forall j :: 0 <= j < k ==> !transitions[j].isValidBit(bit)
    ensures var t := transitions[k];
      Step(transitions, bit, callActions)
        == Move(t.nextState, if callActions && t.action.Some? then [Fired(t.action.value, bit)] else [])
  {
    FirstMatchIsFirst(transitions, bit);
  }

  /**
   * Following a transition whose target is -1 throws at that bit, after the transition's
   * action has fired.
   */
  lemma {:induction false} MinusOneTargetThrowsAfterAction<T>(graph: Graph<T>, state: int, pos: int, bit: T, rest: seq<T>, callActions: bool, k: int)
    requires 0 <= state < |graph| && 0 <= k < |graph[state]| && graph[state][k].isValidBit(bit)
    requires forall j :: 0 <= j < k ==> !graph[state][j].isValidBit(bit)
    requires graph[state][k].nextState == -1
    ensures var t := graph[state][k];
      Walk(graph, state, pos, [bit] + rest, callActions)
        == Trace(Thrown(StateMachineException(bit, pos, state)),
                 if callActions && t.action.Some? then [Fired(t.action.value, bit)] else [])
  {
    EarliestAcceptorDecides(graph[state], bit, callActions, k);
    assert ([bit] + rest)[0] == bit;
  }

  /**
   * The diagnostic is exact: a run that throws stops at bit number `n` (counted from 0
   * here, reported as `position`), whose bit it reports; the bits before it were all
   * followed to the reported state, where bit `n` is not followed.
   */
  lemma {:induction false} ThrownDiagnostic<T>(graph: Graph<T>, state: int, pos: int, stream: seq<T>, callActions: bool)
    requires Walk(graph, state, pos, stream, callActions).outcome.Thrown?
    ensures var e := Walk(graph, state, pos, stream, callActions).outcome.error;
      var n := e.position - pos;
      && 0 <= n < |stream| && e.unexpectedBit == stream[n]
      && Walk(graph, state, pos, stream[..n], callActions).outcome == Finished(e.state)
      && 0 <= e.state < |graph| && Step(graph[e.state], stream[n], callActions).next == -1
    decreases |stream|
  {
    var m := Step(graph[state], stream[0], callActions);
    if m.next != -1 {
      var tail := stream[1..];
      ThrownDiagnostic(graph, m.next, pos + 1, tail, callActions);
      var n := Walk(graph, state, pos, stream, callActions).outcome.error.position - pos;
      assert stream[..n][0] == stream[0] && stream[..n][1..] == tail[..n - 1];
    } else {
      assert stream[..0] == [];
    }
  }

  /**
   * The actions a throwing run fires are those of the bits before the one it reports,
   * then those of the failing step.
   */
  lemma {:induction false} ThrownLog<T>(graph: Graph<T>, state: int, pos: int, stream: seq<T>, callActions: bool)
    requires Walk(graph, state, pos, stream, callActions).outcome.Thrown?
    ensures var e := Walk(graph, state, pos, stream, callActions).outcome.error;
      var n := e.position - pos;
      && 0 <= n < |stream| && 0 <= e.state < |graph|
      && Walk(graph, state, pos, stream, callActions).log
           == Walk(graph, state, pos, stream[..n], callActions).log + Step(graph[e.state], stream[n], callActions).fired
  {
    ThrownDiagnostic(graph, state, pos, stream, callActions);
    var e := Walk(graph, state, pos, stream, callActions).outcome.error;
    var n := e.position - pos;
    assert stream == stream[..n] + stream[n..];
    WalkAppend(graph, state, pos, stream[..n], stream[n..], callActions);
    assert stream[n..][0] == stream[n];
  }

  /** With every target in range, a run from a state of the graph never indexes outside it. */
  lemma {:induction false} NoStateIndexFault<T>(graph: Graph<T>, state: int, pos: int, stream: seq<T>, callActions: bool)
    requires TargetsInRange(graph) && 0 <= state < |graph|
    ensures !Walk(graph, state, pos, stream, callActions).outcome.StateIndexOutOfRange?
    decreases |stream|
  {
    if stream != [] {
      var m := Step(graph[state], stream[0], callActions);
      if m.next != -1 {
        NoStateIndexFault(graph, m.next, pos + 1, stream[1..], callActions);
      }
    }
  }

  /** The run finishes exactly when the reference walk reaches a state, and in that state. */
  lemma {:induction false} ExecMatchesReach<T>(graph: Graph<T>, stream: seq<T>, callActions: bool)
    ensures Exec(graph, stream, callActions).outcome.Finished? <==> Reach(graph, stream).Some?
    ensures Reach(graph, stream).Some? ==> Exec(graph, stream, callActions).outcome == Finished(Reach(graph, stream).value)
    decreases |stream|
  {
    if stream != [] {
      var front, last := stream[..|stream| - 1], stream[|stream| - 1];
      assert stream == front + [last];
      ExecMatchesReach(graph, front, callActions);
      WalkAppend(graph, 0, 1, front, [last], callActions);
    }
  }

  /** An empty stream finishes in state 0 and fires nothing, even on a machine without states. */
  lemma {:induction false} EmptyStreamFinishesAtZero<T>(graph: Graph<T>, callActions: bool)
    ensures Exec(graph, [], callActions) == Trace(Finished(0), [])
  {
  }

  class FiniteStateMachine<T(==,!new)> {
    /** `States`: the states, in the order they were added. */
    var states: seq<State<T>>

    /** Every state sits at the position its `Index` names. */
    ghost predicate Valid()
      reads this, states
    {
      forall i :: 0 <= i < |states| ==> states[i].index == i
    }

    /** The transitions of every state, as the run sees them. */
    ghost function Graph(): (g: Graph<T>)
      reads this, states
      ensures |g| == |states| && forall i :: 0 <= i < |states| ==> g[i] == states[i].transitions
    {
      seq(|states|, i reads this, states requires 0 <= i < |states| => states[i].transitions)
    }

    constructor ()
      ensures Valid() && states == []
    {
      states := [];
    }

    /**
     * The indexer `this[index]`: the state at `index`; `States[index]` throws
     * `ArgumentOutOfRangeException` for an index outside the list.
     */
    function StateAt(index: int): (r: Result<State<T>, IndexOutOfRange>)
      reads this, states
      requires Valid()
      ensures r.Failure? <==> !(0 <= index < |states|)
      ensures r.Failure? ==> r.error == IndexOutOfRange(index)
      ensures r.Success? ==> r.value in states && r.value.index == index
    {
      if 0 <= index < |states| then Success(states[index]) else Failure(IndexOutOfRange(index))
    }

    /**
     * `AddState()`: appends a fresh state without transitions whose index is the previous
     * number of states; the states already there, and their transitions, do not change.
     */
    method AddState() returns (s: State<T>)
      requires Valid()
      modifies this
      ensures Valid() && fresh(s)
      ensures states == old(states) + [s]
      ensures s.index == old(|states|) && s.transitions == [] && !s.isValid
      ensures Graph() == old(Graph()) + [[]]
    {
      s := new State<T>(|states|);
      states := states + [s];
    }

    /**
     * `Run(stream, callActions)`: how the run ends, and the actions it fired.  It reads the
     * states and their transitions and changes nothing, so two runs of the same stream
     * on the same machine end alike.
     */
    method Run(stream: seq<T>, callActions: bool) returns (outcome: RunOutcome<T>, log: seq<Fired<T>>)
      ensures Trace(outcome, log) == Exec(Graph(), stream, callActions)
    {
      ghost var graph := Graph();
      ghost var expected := Exec(graph, stream, callActions);
      var state := 0;
      var pos := 1;
      log := [];
      var i := 0;
      assert stream[i..] == stream && log + expected.log == expected.log;
      while i < |stream|
        invariant 0 <= i <= |stream| && pos == i + 1
        invariant expected.outcome == Walk(graph, state, pos, stream[i..], callActions).outcome
        invariant expected.log == log + Walk(graph, state, pos, stream[i..], callActions).log
      {
        var bit := stream[i];
        if state < 0 || state >= |states| {
          RunLoopExit(graph, state, stream, i, callActions, log, expected);
          outcome := StateIndexOutOfRange(state);
          return;
        }
        RunLoopStep(graph, state, stream, i, callActions, log, expected);
        assert graph[state] == states[state].transitions;
        var nextState, fired := TakeTransition(states[state].transitions, bit, callActions);
        log := log + fired;
        if nextState == -1 {
          outcome := Thrown(StateMachineException(bit, pos, state));
          return;
        }
        state := nextState;
        pos := pos + 1;
        i := i + 1;
      }
      RunLoopExit(graph, state, stream, i, callActions, log, expected);
      outcome := Finished(state);
    }
  }
}
