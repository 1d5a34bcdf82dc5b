/**
 * `Result<S, E>`: holds either a success value or an error value, kept as two
 * optional fields exactly as the C++ class keeps them, and `Result<S, void>`,
 * which holds a success value or nothing.
 */
module Results {
  import opened Wrappers

  /** The strong type that marks a value as an error when constructing or assigning a result. */
  datatype Error<T> = Error(value: T)

  /** Which side a `Result<S, E>` holds, and the value held. */
  datatype Held<S, E> = HoldsSuccess(success: S) | HoldsError(error: E)

  class Result<S, E> {
    /** `m_success` and `m_error`. */
    var success: Option<S>
    var error: Option<E>

    /** Exactly one side is held. */
    ghost predicate Valid()
      reads this
    {
      success.Some? != error.Some?
    }

    /** The side held and its value. */
    ghost function View(): Held<S, E>
      reads this
      requires Valid()
    {
      if success.Some? then HoldsSuccess(success.value) else HoldsError(error.value)
    }

    /** `explicit Result(S value)`. */
    constructor FromSuccess(value: S)
      ensures Valid() && View() == HoldsSuccess(value)
      ensures success == Some(value) && error == None
    {
      success := Some(value);
      error := None;
    }

    /** `explicit Result(Error<E> value)`: holds the wrapped value, even when `S` and `E` are one type. */
    constructor FromError(value: Error<E>)
      ensures Valid() && View() == HoldsError(value.value)
      ensures success == None && error == Some(value.value)
    {
      success := None;
      error := Some(value.value);
    }

    /** `operator=(S value)`: replaces any success value and discards any error. */
    method AssignSuccess(value: S)
      modifies this
      ensures Valid() && View() == HoldsSuccess(value)
      ensures success == Some(value) && error == None
    {
      success := Some(value);
      error := None;
    }

    /** `operator=(Error<E> value)`: discards any success value and holds the new error. */
    method AssignError(value: Error<E>)
      modifies this
      ensures Valid() && View() == HoldsError(value.value)
      ensures success == None && error == Some(value.value)
    {
      success := None;
      error := Some(value.value);
    }

    /** `isSuccess()`. */
    function IsSuccess(): (b: bool)
      reads this
      ensures b <==> success.Some?
      ensures Valid() ==> (b <==> View().HoldsSuccess?)
    {
      success.Some?
    }

    /** `getSuccessValue()`: `optional::value` throws unless a success value is held. */
    function GetSuccessValue(): (v: S)
      reads this
      requires IsSuccess()
      ensures success == Some(v)
      ensures Valid() ==> View() == HoldsSuccess(v)
    {
      success.value
    }

    /** `getErrorValue()`: `optional::value` throws unless an error value is held. */
    function GetErrorValue(): (v: E)
      reads this
      requires error.Some?
      ensures error == Some(v)
      ensures Valid() ==> View() == HoldsError(v) && !IsSuccess()
    {
      error.value
    }
  }

  /**
   * With one type on both sides, the constructor or assignment chosen (a plain
   * value or an `Error`-wrapped one) decides the side held, never the value.
   */
  method SameTypeSides(v: int) returns (fromValue: bool, fromError: bool, assignedError: bool, assignedValue: bool)
    ensures fromValue && !fromError && !assignedError && assignedValue
  {
    var r := new Result<int, int>.FromSuccess(v);
    var e := new Result<int, int>.FromError(Error(v));
    fromValue := r.IsSuccess();
    fromError := e.IsSuccess();
    r.AssignError(Error(v));
    e.AssignSuccess(v);
    assignedError := r.IsSuccess();
    assignedValue := e.IsSuccess();
  }

  /** `Result<S, void>`: a success value or nothing. */
  class OptionalResult<S> {
    /** `m_success`. */
    var success: Option<S>

    /** `Result()`: no success value. */
    constructor Empty()
      ensures success == None
    {
      success := None;
    }

    /** `explicit Result(S value)`. */
    constructor FromSuccess(value: S)
      ensures success == Some(value)
    {
      success := Some(value);
    }

    /** `operator=(S value)`: replaces or sets the success value. */
    method AssignSuccess(value: S)
      modifies this
      ensures success == Some(value)
    {
      success := Some(value);
    }

    /** `isSuccess()`. */
    function IsSuccess(): (b: bool)
      reads this
      ensures b <==> success != None
    {
      success.Some?
    }

    /** `getSuccessValue()`: valid only while a success value is held. */
    function GetSuccessValue(): (v: S)
      reads this
      requires IsSuccess()
      ensures success == Some(v)
    {
      success.value
    }
  }

  /** A default result holds nothing until a value is assigned, and then holds that value. */
  method DefaultThenAssign<S>(value: S) returns (before: bool, after: bool, got: S)
    ensures !before && after && got == value
  {
    var r := new OptionalResult<S>.Empty();
    before := r.IsSuccess();
    r.AssignSuccess(value);
    after := r.IsSuccess();
    got := r.GetSuccessValue();
  }
}
