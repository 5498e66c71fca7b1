/** Failure-carrying results shared by the codec and the RPC model. */
module Common {

  datatype Option<+T> = None | Some(value: T)

  /** The outcome of a codec function: a value, or the message of the
      ValueError the Python function raises. */
  datatype Result<+T> = Ok(value: T) | Err(msg: string)
}
