/** Failure-compatible result types shared by the decoders and the boundary scans.

    The error values are named after the Python exceptions the modelled code raises
    or lets escape: `struct.error` for a buffer whose length does not match the
    layout, `UnicodeDecodeError` for a string field that is not strict UTF-8,
    `StopIteration` for a scan that runs off the end of the packet stream, and
    `AttributeError` for a telemetry-only attribute read off another packet kind.
 */
module Results {

  datatype Option<+T> = None | Some(value: T)

  datatype Error =
    | StructError
    | UnicodeDecodeError
    | StopIteration
    | AttributeError
    | TypeError

  datatype Result<+T> = Ok(value: T) | Err(error: Error) {

    predicate IsFailure() {
      Err?
    }

    function PropagateFailure<U>(): Result<U>
      requires Err?
    {
      Err(error)
    }

    function Extract(): T
      requires Ok?
    {
      value
    }
  }
}
