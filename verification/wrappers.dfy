/** Wrappers shared by every module of the model. */
module Wrappers {

  /** A value that may be missing: `null` / `undefined` in the TypeScript code, a nullable reference in C#. */
  datatype Option<+T> = None | Some(value: T)

  /** Application.Core.Result<T> of the .NET API: a value, or an error message. */
  datatype Result<+T> = Success(value: T) | Failure(error: string)

  /** How a JavaScript call ends: it returns a value, or it throws an error. */
  datatype Completion<+T> = Normal(value: T) | Abrupt(error: string)
}
