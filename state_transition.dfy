/**
 * Model of Tokenize/StateMachine/StateTransition.cs.
 *
 * A `StateTransition<T>` is an immutable value: the index of the state to move to,
 * the `BitValidator<T>` delegate deciding whether one input symbol ("bit") is accepted,
 * and an optional `StateAction<T>` delegate.
 *
 * Delegates: a validator is a total, pure function `T -> bool`.  An action is identified
 * by an `ActionId`; invoking it on a bit is observed as a `Fired(id, bit)` entry in the
 * log that a run of the machine returns.  A null action is `None`.
 */
module StateTransitions {
  import opened Wrappers

  /** Identity of a caller-supplied `StateAction<T>` delegate. */
  type ActionId = nat

  /** `BitValidator<T>`: decides whether a bit is valid for a transition. */
  type BitValidator<!T> = T -> bool

  /**
   * The struct `StateTransition<T>`; the datatype constructor is the three-argument
   * C# constructor, which stores `nextState`, `validator` and `action` as given.
   * `nextState` is not validated: any int, negative or out of range, is accepted.
   */
  datatype StateTransition<!T> = StateTransition(nextState: int, isValidBit: BitValidator<T>, action: Option<ActionId>)

  /** One invocation of an action: which delegate ran, and on which bit. */
  datatype Fired<T> = Fired(action: ActionId, bit: T)

  /** The predicate `(bit) => bit.Equals(validBit)` built by the equality overloads. */
  function EqualsBit<T(==,!new)>(validBit: T): (f: BitValidator<T>)
    ensures forall b :: f(b) <==> b == validBit
  {
    b => b == validBit
  }

  /**
   * The second C# constructor: a transition valid exactly for bits equal to `validBit`.
   */
  function EqualityTransition<T(==,!new)>(nextState: int, validBit: T, action: Option<ActionId>): (t: StateTransition<T>)
    ensures t.nextState == nextState && t.action == action
    ensures forall b :: t.isValidBit(b) <==> b == validBit
  {
    StateTransition(nextState, EqualsBit(validBit), action)
  }
}
