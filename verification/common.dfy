/**
 Nullable references and the exceptions of the .NET calls this model replaces.
 */
module Common {

  /** A reference that may be null. */
  datatype Option<+T> = None | Some(value: T)

  /** The exception an operation throws. */
  datatype Fault =
    | ArgumentNull(parameter: string)  // ArgumentNullException naming the parameter
    | XmlError                         // XmlException: ill-formed input or content of the wrong type

  /** The outcome of an operation that may throw. */
  datatype Result<+T> = Success(value: T) | Failure(fault: Fault)

  /** String.IsNullOrEmpty */
  predicate IsNullOrEmpty(s: Option<string>)
  {
    s.None? || s.value == ""
  }
}
