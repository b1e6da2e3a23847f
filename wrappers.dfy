/** Option and Result types shared by every module of the model, and the
    .NET exceptions the modelled code can raise, as values. */
module Wrappers {

  datatype Option<+T> = None | Some(value: T)

  /** The exceptions that the modelled members throw or let through. */
  datatype Fault =
    | OutOfView          // a MemoryMappedViewAccessor read outside the view (ArgumentException family)
    | NegativeArraySize  // `new T[n]` with n < 0 (OverflowException)
    | IndexOutOfRange    // an array index outside the array (IndexOutOfRangeException)
    | InvalidCast        // a cast of a boxed value or cached array to the wrong type
    | NullReference      // unboxing null to a value type
    | ArgumentNull       // a null argument that the callee rejects
    | ArgumentOutOfRange // a value outside the range the callee accepts

  /** A fault as it leaves a telemetry field refresh: tagged with the field name. */
  datatype Failure = Failure(fault: Fault, field: Option<string>)

  datatype Result<+T> = Ok(value: T) | Err(fault: Fault)
}
