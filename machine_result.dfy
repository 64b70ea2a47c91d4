/**
 * Model of Tokenize/StateMachine/MachineResult.cs.
 *
 * An immutable result of a state-machine evaluation: the state the machine ended on and
 * an error message, null (`None`) on success.  The private constructor is the datatype
 * constructor; callers use the static factories `Success` and `Failed`.  `Failed` with a
 * null message throws `ArgumentException`, modelled as a `Failure` result.
 */
module MachineResults {
  import opened Wrappers

  datatype MachineResult = MachineResult(state: int, error: Option<string>)
  {
    /** `HasError => Error != null`. */
    predicate HasError() {
      error.Some?
    }
  }

  /** `System.ArgumentException`, thrown by `Failed` for a null message. */
  datatype ArgumentException = ArgumentException

  /** `MachineResult.Success(state)`. */
  function Success(state: int): (r: MachineResult)
    ensures r.state == state && r.error == None && !r.HasError()
  {
    MachineResult(state, None)
  }

  /** `MachineResult.Failed(state, error)`. */
  function Failed(state: int, error: Option<string>): (r: Result<MachineResult, ArgumentException>)
    ensures r.Failure? <==> error == None
    ensures r.Success? ==> r.value.state == state && r.value.error == error && r.value.HasError()
  {
    if error == None then Result.Failure(ArgumentException) else Result.Success(MachineResult(state, error))
  }

  /** The two factories produce exactly the results without and with an error. */
  lemma {:induction false} HasErrorIffMadeByFailed(r: MachineResult)
    ensures !r.HasError() <==> r == Success(r.state)
    ensures r.HasError() <==> Failed(r.state, r.error) == Result.Success(r)
  {
  }
}
