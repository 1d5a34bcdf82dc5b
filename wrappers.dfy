/** Small value wrappers shared by the rest of the model. */
module Wrappers {

  /** An optional value, the model of `std::optional`. */
  datatype Option<+T> = None | Some(value: T)

  /** Either a value or the reason there is none; used where the source throws. */
  datatype Outcome<+T, +E> = Ok(value: T) | Fail(error: E)
}
