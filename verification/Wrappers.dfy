/** Result types shared by the model: missing values and error returns. */
module Wrappers {

  // None stands for a missing value: NaN in a data frame, an absent key in a dictionary.
  datatype Option<+T> = None | Some(value: T)

  // Err stands for an exception that the source raises.
  datatype Result<+T, +E> = Ok(value: T) | Err(error: E)
}
