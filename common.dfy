/** Values shared by the modules of the model: optional values, the .NET exceptions
    the modelled code raises, and how a call ends. */
module Common {

  /** A value that may be absent: a null reference, or a `Nullable<T>` without a value. */
  datatype Option<+T> = None | Some(value: T)

  /** The exceptions the modelled code raises. Their messages are not modelled. */
  datatype ClrException =
    | ArgumentNullException
    | ArgumentException
    | InvalidOperationException
    | IndexOutOfRangeException

  /** How a call without a result ends: normally, or by raising an exception. */
  datatype Outcome = Done | Threw(error: ClrException)

  /** How a call with a result ends. */
  datatype Result<+T> = Ok(value: T) | Err(error: ClrException)
}
