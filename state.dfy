/**
 * Model of Tokenize/StateMachine/State.cs.
 *
 * A `State<T>` is an object: its `Index` is fixed at construction, `IsValid` is caller
 * metadata that the machine never reads, and its list of transitions grows in place,
 * append-only, through the `AddTransition` overloads, each of which returns the state
 * itself for chaining.  C# overloads get distinct names here.
 */
module States {
  import opened Wrappers
  import opened StateTransitions

  /**
   * The lambda built by the set overload: a `foreach` over `validBits` that returns true
   * on the first element equal to `bit`, and false once the elements run out.
   */
  function AnyEquals<T(==,!new)>(validBits: seq<T>, bit: T): (r: bool)
    ensures r <==> bit in validBits
  {
    if validBits == [] then false
    else if bit == validBits[0] then true
    else AnyEquals(validBits[1..], bit)
  }

  /** The predicate of the set overload, as a `BitValidator<T>`. */
  function InSet<T(==,!new)>(validBits: seq<T>): (f: BitValidator<T>)
    ensures forall b :: f(b) <==> b in validBits
  {
    b => AnyEquals(validBits, b)
  }

  class State<T(==,!new)> {
    /** The index associated with the owning machine. */
    const index: int
    /** Whether this is a valid ending state; set by callers only. */
    var isValid: bool
    /** The transitions, in insertion order. */
    var transitions: seq<StateTransition<T>>

    constructor (index: int)
      ensures this.index == index && !isValid && transitions == []
    {
      this.index := index;
      isValid := false;
      transitions := [];
    }

    /** `AddTransition(StateTransition<T>)`: appends and returns this state. */
    method AddTransition(transition: StateTransition<T>) returns (self: State<T>)
      modifies this
      ensures self == this && isValid == old(isValid)
      ensures transitions == old(transitions) + [transition]
    {
      transitions := transitions + [transition];
      self := this;
    }

    /** `AddTransition(int, BitValidator<T>, StateAction<T>)`. */
    method AddValidatorTransition(nextState: int, validator: BitValidator<T>, action: Option<ActionId>) returns (self: State<T>)
      modifies this
      ensures self == this && isValid == old(isValid)
      ensures transitions == old(transitions) + [StateTransition(nextState, validator, action)]
    {
      self := AddTransition(StateTransition(nextState, validator, action));
    }

    /** `AddTransition(int, T, StateAction<T>)`: valid exactly for bits equal to `validBit`. */
    method AddBitTransition(nextState: int, validBit: T, action: Option<ActionId>) returns (self: State<T>)
      modifies this
      ensures self == this && isValid == old(isValid)
      ensures transitions == old(transitions) + [EqualityTransition(nextState, validBit, action)]
      ensures var t := transitions[|transitions| - 1];
        t.nextState == nextState && t.action == action && forall b :: t.isValidBit(b) <==> b == validBit
    {
      self := AddValidatorTransition(nextState, EqualsBit(validBit), action);
    }

    /** `AddTransition(int, IEnumerable<T>, StateAction<T>)`: valid exactly for the members of `validBits`. */
    method AddBitsTransition(nextState: int, validBits: seq<T>, action: Option<ActionId>) returns (self: State<T>)
      modifies this
      ensures self == this && isValid == old(isValid)
      ensures transitions == old(transitions) + [StateTransition(nextState, InSet(validBits), action)]
      ensures var t := transitions[|transitions| - 1];
        t.nextState == nextState && t.action == action && forall b :: t.isValidBit(b) <==> b in validBits
    {
      self := AddValidatorTransition(nextState, InSet(validBits), action);
    }

    /** `AddTransition(int, BitValidator<T>)`: the action-taking overload with a null action. */
    method AddValidatorTransitionNoAction(nextState: int, validator: BitValidator<T>) returns (self: State<T>)
      modifies this
      ensures self == this && isValid == old(isValid)
      ensures transitions == old(transitions) + [StateTransition(nextState, validator, None)]
    {
      self := AddValidatorTransition(nextState, validator, None);
    }

    /** `AddTransition(int, T)`: the equality overload with a null action. */
    method AddBitTransitionNoAction(nextState: int, validBit: T) returns (self: State<T>)
      modifies this
      ensures self == this && isValid == old(isValid)
      ensures transitions == old(transitions) + [EqualityTransition(nextState, validBit, None)]
      ensures var t := transitions[|transitions| - 1];
        t.nextState == nextState && t.action == None && forall b :: t.isValidBit(b) <==> b == validBit
    {
      self := AddBitTransition(nextState, validBit, None);
    }

    /** `AddTransition(int, IEnumerable<T>)`: the set overload with a null action. */
    method AddBitsTransitionNoAction(nextState: int, validBits: seq<T>) returns (self: State<T>)
      modifies this
      ensures self == this && isValid == old(isValid)
      ensures transitions == old(transitions) + [StateTransition(nextState, InSet(validBits), None)]
      ensures var t := transitions[|transitions| - 1];
        t.nextState == nextState && t.action == None && forall b :: t.isValidBit(b) <==> b in validBits
    {
      self := AddBitsTransition(nextState, validBits, None);
    }
  }
}
