/** Values shared by every part of the archiver model. */
module Common {

  datatype Option<+T> = None | Some(value: T)

  /** Why an invocation stopped early: a configuration key that has no usable
      value, or an exception raised by a storage-backend call. */
  datatype Fault = MissingKey(key: string) | BackendError

  /** The value of a step that may raise instead of returning. */
  datatype Result<+T> = Ok(value: T) | Err(fault: Fault)

  /** Where a blob is archived: a container and a subfolder inside it. */
  datatype Destination = Destination(container: string, subfolder: string)
}
