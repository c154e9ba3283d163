/** Optional values and the abstract outcome of a request to the task store. */
module Results {

  datatype Option<+T> = None | Some(value: T)

  /** What a request to the task store resolved to: a response body, or any
      network or non-success status (the only error kind the client knows). */
  datatype Outcome<+T> = Success(value: T) | Failure
}
