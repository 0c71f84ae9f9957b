/** Optional values, results and the failure outcomes the API reports. */
module Wrappers {

  /** A value that may be absent: a JSON field left out of a request body,
      or a record that a lookup did not find. */
  datatype Option<+T> = None | Some(value: T)

  /** The failures the controllers answer with instead of a success body. */
  datatype ApiError =
    | InputNotValid   // the "Input is not valid" answer
    | InvalidData     // the "Invalid data provided" answer
    | InternalError   // an exception caught by a controller's catch block

  /** The outcome of one controller call. */
  datatype Result<+T> = Ok(value: T) | Err(error: ApiError)

  /** JavaScript truthiness of an optional string: absent and empty are falsy. */
  predicate Truthy(o: Option<string>)
  {
    o.Some? && o.value != ""
  }
}
