/** The optional value and the store's error-carrying result, used throughout the model. */
module Wrappers {

  datatype Option<+T> = None | Some(value: T)

  /** The sentinel errors a store operation answers with. */
  datatype StoreError = NotFound | Conflict | Forbidden | Invalid | SecurityCheckRequired

  datatype Result<+T> = Ok(value: T) | Err(error: StoreError)
}
