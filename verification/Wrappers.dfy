/** Values that may be missing, and results that may be errors. */
module Wrappers {
  datatype Option<+T> = None | Some(value: T)

  /** `reason` stands for the exception raised, told apart by what it complains about. */
  datatype Result<+T> = Success(value: T) | Failure(reason: string)
}
