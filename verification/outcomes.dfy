/** Failure-carrying values shared by every module of the model. */
module Outcomes {

  /** A C# reference that may be null: `None` is null. */
  datatype Option<+T> = None | Some(value: T)

  /** The result of a step that may throw: its value, or what describes
      the exception that escaped it: its type name, or the Lua error
      message when a script fails to run. */
  datatype Outcome<+T> = Ok(value: T) | Fault(error: string)

  /** What an operation that mutates state in place leaves behind: the
      state at the point it stopped, and the exception that stopped it
      (`None` when it ran to the end). */
  datatype Partial<+T> = Partial(state: T, fault: Option<string>)

  const NullReference := "NullReferenceException"
  const OutOfRange := "ArgumentOutOfRangeException"
  const IndexOutOfRange := "IndexOutOfRangeException"
  const FileNotFound := "FileNotFoundException"
  const ArgumentNull := "ArgumentNullException"
}
