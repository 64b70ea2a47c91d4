/**
 * Worked runs of small machines: a recogniser of alternating `A`, `B` and a digit
 * collector whose action fires once per digit.
 */
module FiniteStateMachineScenarios {
  import opened Wrappers
  import opened StateTransitions
  import opened StateMachineExceptions
  import opened States
  import opened FiniteStateMachines

  /** State 0 goes to 1 on `A`, state 1 back to 0 on `B`. */
  function AlternatingGraph(): Graph<char>
  {
    [[EqualityTransition(1, 'A', None)], [EqualityTransition(0, 'B', None)]]
  }

  /** `ABAB` finishes in state 0; `AA` throws at position 2 in state 1; nothing fires. */
  lemma {:induction false} AlternatingRuns(callActions: bool)
    ensures Exec(AlternatingGraph(), "ABAB", callActions) == Trace(Finished(0), [])
    ensures Exec(AlternatingGraph(), "AA", callActions) == Trace(Thrown(StateMachineException('A', 2, 1)), [])
  {
    var g := AlternatingGraph();
    assert Step(g[0], 'A', callActions) == Move(1, []);
    assert Step(g[1], 'B', callActions) == Move(0, []);
    assert Step(g[1], 'A', callActions) == Move(-1, []);
    var b: seq<char> := ['B'];
    var ab: seq<char> := ['A'] + b;
    var bab: seq<char> := ['B'] + ab;
    assert "ABAB" == ['A'] + bab;
    assert Walk(g, 1, 4, b, callActions) == Trace(Finished(0), []);
    assert Walk(g, 0, 3, ab, callActions) == Trace(Finished(0), []);
    assert Walk(g, 1, 2, bab, callActions) == Trace(Finished(0), []);
    var a: seq<char> := ['A'];
    assert "AA" == ['A'] + a;
    assert Walk(g, 1, 2, a, callActions) == Trace(Thrown(StateMachineException('A', 2, 1)), []);
  }

  /** A single state looping on any digit, firing action 7 with the digit. */
  function DigitGraph(): Graph<char>
  {
    [[StateTransition(0, (c: char) => '0' <= c <= '9', Some(7))]]
  }

  /** `12` with actions fires 7 on each digit in order; without actions it fires nothing. */
  lemma {:induction false} DigitRuns(callActions: bool)
    ensures Exec(DigitGraph(), "12", callActions)
      == Trace(Finished(0), if callActions then [Fired(7, '1'), Fired(7, '2')] else [])
  {
    var g := DigitGraph();
    var fired1: seq<Fired<char>> := if callActions then [Fired(7, '1')] else [];
    var fired2: seq<Fired<char>> := if callActions then [Fired(7, '2')] else [];
    assert Step(g[0], '1', callActions) == Move(0, fired1);
    assert Step(g[0], '2', callActions) == Move(0, fired2);
    var two: seq<char> := ['2'];
    assert "12" == ['1'] + two;
    assert Walk(g, 0, 2, two, callActions) == Trace(Finished(0), fired2);
    assert fired1 + fired2 == if callActions then [Fired(7, '1'), Fired(7, '2')] else [];
  }

  /**
   * Builds the alternating machine through `AddState` and the equality overload of
   * `AddTransition`.
   */
  method BuildAlternatingMachine() returns (m: FiniteStateMachine<char>)
    ensures m.Valid() && m.Graph() == AlternatingGraph()
  {
    m := new FiniteStateMachine<char>();
    var s0 := m.AddState();
    var s1 := m.AddState();
    var _ := s0.AddBitTransitionNoAction(1, 'A');
    var _ := s1.AddBitTransitionNoAction(0, 'B');
    assert m.states == [s0, s1];
    assert s0.transitions == [EqualityTransition(1, 'A', None)];
    assert s1.transitions == [EqualityTransition(0, 'B', None)];
    assert m.Graph() == [s0.transitions, s1.transitions];
  }

  /** The machine built through the class runs `ABAB` and `AA` as the graph does. */
  method AlternatingMachineRuns() returns (finished: RunOutcome<char>, thrown: RunOutcome<char>)
    ensures finished == Finished(0)
    ensures thrown == Thrown(StateMachineException('A', 2, 1))
  {
    var m := BuildAlternatingMachine();
    AlternatingRuns(true);
    var log;
    finished, log := m.Run("ABAB", true);
    thrown, log := m.Run("AA", true);
  }
}
